/** The memory system as a whole: the kernel heap, the kernel stacks and all live address spaces on
    one machine. The boot sequence (kernel/src/main.c:106-112) establishes one invariant, every
    operation keeps it, and so does every run of operations.
  */
module System {
  import opened Common
  import opened Pte
  import Pmm
  import opened PageTable
  import opened Machine
  import opened MapPages
  import opened Confine
  import opened Teardown
  import opened Heap
  import opened HeapSpec
  import HeapRuns
  import opened HeapUse
  import opened Holders
  import IntrusiveList
  import opened Kstack
  import opened Vmm
  import opened Fork
  import opened SystemMem
  import opened SystemSpec
  import opened SystemRuns
  import opened SystemSpaces

  // ---- What one part may do to the others ----

  // The heap window is not the stack window.
  lemma {:induction false} HeapOutlivesGrowth(m0: Memory, t0: Tables, p0: Pages, m1: Memory, t1: Tables, p1: Pages,
                                              kroot: nat, n: nat)
    requires KernelGrowth(m0, t0, p0, m1, t1, p1, kroot, STACK_SLOT) && IsRoot(t0, kroot)
    requires WindowMapped(m0, kroot, n)
    ensures WindowMapped(m1, kroot, n)
  {
    hide Entry, Present, WalksKept;
    forall j: nat | j < SLOT_PAGES ensures WindowPage(m1, kroot, n, j) {
      HeapVpnIs(j);
      assert WindowPage(m0, kroot, n, j);
      assert EntryKept(m0, m1, STACK_SLOT, kroot, HeapVpn(j));
    }
  }

  lemma {:induction false} HeapOutlivesShrinking(m0: Memory, m1: Memory, tab: Tables, kroot: nat, lo: nat, hi: nat,
                                                 n: nat)
    requires StackShrunk(m0, m1, tab, kroot, lo, hi) && IsRoot(tab, kroot) && hi <= SLOT_PAGES
    requires WindowMapped(m0, kroot, n)
    ensures WindowMapped(m1, kroot, n)
  {
    hide Entry, Present, WalksKept;
    forall j: nat | j < SLOT_PAGES ensures WindowPage(m1, kroot, n, j) {
      HeapVpnIs(j);
      assert WindowPage(m0, kroot, n, j);
      assert EntryShrunk(m0, m1, kroot, HeapVpn(j), lo, hi);
    }
  }

  // No operation on a space or on the heap touches the stack window.
  lemma {:induction false} StacksOutliveConfined(m0: Memory, t0: Tables, p0: Pages, m1: Memory, t1: Tables, p1: Pages,
                                                 kroot: nat, r: nat)
    requires Confined(m0, t0, p0, m1, t1, p1, kroot, r) && IsRoot(t0, kroot)
    ensures BelowKept(m0, m1, kroot, SLOT_PAGES)
  {
    hide Entry, Confined;
    forall j | 0 <= j < SLOT_PAGES ensures Entry(m1, kroot, StackVpn(j)) == Entry(m0, kroot, StackVpn(j)) {
      StackVpnIs(j);
      ConfinedKernelEntry(m0, t0, p0, m1, t1, p1, kroot, r, kroot, StackVpn(j));
    }
  }

  lemma {:induction false} StacksOutliveDropped(m0: Memory, t0: Tables, p0: Pages, m1: Memory, t1: Tables, p1: Pages,
                                                kroot: nat, r: nat)
    requires Dropped(m0, t0, p0, m1, t1, p1, kroot, r) && IsRoot(t0, kroot) && t0[kroot].root == kroot && r != kroot
    ensures BelowKept(m0, m1, kroot, SLOT_PAGES)
  {
    hide Entry, Dropped;
    forall j | 0 <= j < SLOT_PAGES ensures Entry(m1, kroot, StackVpn(j)) == Entry(m0, kroot, StackVpn(j)) {
      StackVpnIs(j);
      DroppedEntry(m0, t0, p0, m1, t1, p1, kroot, r, kroot, StackVpn(j));
    }
  }

  lemma {:induction false} WindowStays(m0: Memory, m1: Memory, kroot: nat, next: nat, owned: seq<nat>)
    requires BelowKept(m0, m1, kroot, SLOT_PAGES) && UnmappedFrom(m0, kroot, next) && StacksHeld(m0, kroot, owned)
    ensures UnmappedFrom(m1, kroot, next) && StacksHeld(m1, kroot, owned)
  {
    hide Entry, Present, InStack;
  }

  // kstack_init: its pages, all or some of them, are those of one more stack.
  lemma {:induction false} StackAdded(m0: Memory, m1: Memory, kroot: nat, next: nat, built: nat, owned: seq<nat>,
                                      owned': seq<nat>)
    requires BelowKept(m0, m1, kroot, next + 1) && StacksHeld(m0, kroot, owned) && built <= STACK_PAGES
    requires UnmappedFrom(m1, kroot, next + 1 + built) && !Present(Entry(m1, kroot, StackVpn(next)))
    requires next + 1 in owned' && forall b :: b in owned ==> b in owned'
    ensures StacksHeld(m1, kroot, owned')
  {
    hide Entry, Present;
    forall j | 0 <= j < SLOT_PAGES && Present(Entry(m1, kroot, StackVpn(j))) ensures InStack(owned', j) {
      if j < next {
        assert InStack(owned, j);
      } else {
        assert next + 1 <= j < next + 1 + STACK_PAGES;
      }
    }
  }

  // kstack_free
  lemma {:induction false} StackRemoved(m0: Memory, m1: Memory, tab: Tables, kroot: nat, base: nat, owned: seq<nat>,
                                        owned': seq<nat>)
    requires StackShrunk(m0, m1, tab, kroot, base, base + STACK_PAGES) && StacksHeld(m0, kroot, owned)
              && IsRoot(tab, kroot)
    requires forall j {:trigger StackVpn(j)} :: base <= j < base + STACK_PAGES ==>
              !Present(Entry(m1, kroot, StackVpn(j)))
    requires forall b :: b in owned && b != base ==> b in owned'
    ensures StacksHeld(m1, kroot, owned')
  {
    hide Entry, WalksKept;
    ZeroIsAbsent();
    hide Present;
    var top := base + STACK_PAGES;
    forall j | 0 <= j < SLOT_PAGES && Present(Entry(m1, kroot, StackVpn(j))) ensures InStack(owned', j) {
      StackVpnIs(j);
      assert EntryShrunk(m0, m1, kroot, StackVpn(j), base, top);
      var b :| b in owned && b <= j < b + STACK_PAGES;
      assert b in owned';
    }
  }

  // ---- All live spaces ----

  lemma {:induction false} FreshIsUnlisted(mem: Memory, tab: Tables, kroot: nat, sv: seq<SpaceView>, r: nat)
    requires Held(mem, tab, kroot, sv) && r !in tab
    ensures !RootListed(sv, r)
  {
    forall i | 0 <= i < |sv| ensures sv[i].root != r {
      HeldParts(mem, tab, kroot, sv, i);
    }
  }

  // After an operation on the space r, the other spaces are held.
  lemma {:induction false} OthersHeld(m0: Memory, t0: Tables, p0: Pages, m1: Memory, t1: Tables, p1: Pages, kroot: nat,
                                      r: nat, s: SpaceView)
    requires Confined(m0, t0, p0, m1, t1, p1, kroot, r) && HeldAt(m0, t0, kroot, s) && s.root != r
    ensures HeldAt(m1, t1, kroot, s)
  {
    hide Confined, Covered;
    CoveredKept(m0, t0, p0, m1, t1, p1, kroot, r, s.root, s.vmas);
  }

  lemma {:induction false} RootsAfter(m0: Memory, t0: Tables, p0: Pages, m1: Memory, t1: Tables, p1: Pages, kroot: nat,
                                      r: nat, g: nat)
    requires Confined(m0, t0, p0, m1, t1, p1, kroot, r) && IsRoot(t1, g)
    ensures IsRoot(t0, g) || g == r
  {
  }

  // The heap has grown, or the space r, which is not listed, was worked on and is not left.
  lemma {:induction false} HeldAfterKernel(m0: Memory, t0: Tables, p0: Pages, m1: Memory, t1: Tables, p1: Pages,
                                           kroot: nat, sv: seq<SpaceView>)
    requires Confined(m0, t0, p0, m1, t1, p1, kroot, kroot) && Held(m0, t0, kroot, sv)
    ensures Held(m1, t1, kroot, sv)
  {
    hide Confined, Covered, HeldAt;
    forall i | 0 <= i < |sv| ensures HeldAt(m1, t1, kroot, sv[i]) {
      HeldParts(m0, t0, kroot, sv, i);
      OthersHeld(m0, t0, p0, m1, t1, p1, kroot, kroot, sv[i]);
    }
    forall g | IsRoot(t1, g) && g != kroot ensures RootListed(sv, g) {
      RootsAfter(m0, t0, p0, m1, t1, p1, kroot, kroot, g);
    }
  }

  // The listed space i was worked on.
  lemma {:induction false} HeldAfterOne(m0: Memory, t0: Tables, p0: Pages, m1: Memory, t1: Tables, p1: Pages,
                                        kroot: nat, sv: seq<SpaceView>, i: nat, vmas: seq<Vma>)
    requires Held(m0, t0, kroot, sv) && i < |sv| && Confined(m0, t0, p0, m1, t1, p1, kroot, sv[i].root)
    requires Covered(m1, t1, kroot, sv[i].root, vmas)
    ensures Held(m1, t1, kroot, sv[i := SpaceView(sv[i].root, vmas)])
  {
    hide Confined, Covered;
    var sv' := sv[i := SpaceView(sv[i].root, vmas)];
    HeldParts(m0, t0, kroot, sv, i);
    forall j | 0 <= j < |sv| ensures HeldAt(m1, t1, kroot, sv'[j]) {
      if j != i {
        assert HeldAt(m0, t0, kroot, sv[j]);
        OthersHeld(m0, t0, p0, m1, t1, p1, kroot, sv[i].root, sv[j]);
      }
    }
    forall g | IsRoot(t1, g) && g != kroot ensures RootListed(sv', g) {
      RootsAfter(m0, t0, p0, m1, t1, p1, kroot, sv[i].root, g);
      if g == sv[i].root {
        assert sv'[i].root == g;
      } else {
        var j :| 0 <= j < |sv| && sv[j].root == g;
        assert sv'[j].root == g;
      }
    }
  }

  // A new space r has been built.
  lemma {:induction false} HeldAfterNew(m0: Memory, t0: Tables, p0: Pages, m1: Memory, t1: Tables, p1: Pages,
                                        kroot: nat, sv: seq<SpaceView>, s: SpaceView)
    requires Held(m0, t0, kroot, sv) && s.root !in t0 && Confined(m0, t0, p0, m1, t1, p1, kroot, s.root)
    requires Covered(m1, t1, kroot, s.root, s.vmas)
    ensures Held(m1, t1, kroot, sv + [s])
  {
    hide Confined, Covered;
    var sv' := sv + [s];
    FreshIsUnlisted(m0, t0, kroot, sv, s.root);
    forall j | 0 <= j < |sv'| ensures HeldAt(m1, t1, kroot, sv'[j]) {
      if j < |sv| {
        assert HeldAt(m0, t0, kroot, sv[j]);
        OthersHeld(m0, t0, p0, m1, t1, p1, kroot, s.root, sv[j]);
      }
    }
    forall g | IsRoot(t1, g) && g != kroot ensures RootListed(sv', g) {
      RootsAfter(m0, t0, p0, m1, t1, p1, kroot, s.root, g);
      if g == s.root {
        assert sv'[|sv|].root == g;
      } else {
        var j :| 0 <= j < |sv| && sv[j].root == g;
        assert sv'[j].root == g;
      }
    }
  }

  lemma {:induction false} HeldAcrossDrop(m0: Memory, t0: Tables, p0: Pages, m1: Memory, t1: Tables, p1: Pages,
                                          kroot: nat, r: nat, s: SpaceView)
    requires Dropped(m0, t0, p0, m1, t1, p1, kroot, r) && TableWf(m0, t0, kroot) && HeldAt(m0, t0, kroot, s)
              && s.root != r
    ensures HeldAt(m1, t1, kroot, s)
  {
    hide Dropped, TableWf;
    Linked(m0, t0, kroot, s.root);
    SpacesOutlive(m0, t0, p0, m1, t1, p1, kroot, r, s.root, s.vmas);
  }

  lemma {:induction false} RootsAfterDrop(m0: Memory, t0: Tables, p0: Pages, m1: Memory, t1: Tables, p1: Pages,
                                          kroot: nat, r: nat, g: nat)
    requires Dropped(m0, t0, p0, m1, t1, p1, kroot, r) && IsRoot(t1, g)
    requires r in t0 ==> t0[r].root == r
    ensures IsRoot(t0, g) && g != r
  {
  }

  // The listed space i is gone.
  lemma {:induction false} HeldAfterFree(m0: Memory, t0: Tables, p0: Pages, m1: Memory, t1: Tables, p1: Pages,
                                         kroot: nat, sv: seq<SpaceView>, i: nat)
    requires Held(m0, t0, kroot, sv) && i < |sv| && TableWf(m0, t0, kroot)
    requires Dropped(m0, t0, p0, m1, t1, p1, kroot, sv[i].root)
    ensures Held(m1, t1, kroot, Without(sv, i))
  {
    hide Dropped, TableWf, Covered;
    var sv', r := Without(sv, i), sv[i].root;
    HeldParts(m0, t0, kroot, sv, i);
    Linked(m0, t0, kroot, r);
    forall j | 0 <= j < |sv'| ensures HeldAt(m1, t1, kroot, sv'[j]) {
      var k := if j < i then j else j + 1;
      assert sv'[j] == sv[k] && HeldAt(m0, t0, kroot, sv[k]);
      HeldAcrossDrop(m0, t0, p0, m1, t1, p1, kroot, r, sv[k]);
    }
    forall g | IsRoot(t1, g) && g != kroot ensures RootListed(sv', g) {
      RootsAfterDrop(m0, t0, p0, m1, t1, p1, kroot, r, g);
      var j :| 0 <= j < |sv| && sv[j].root == g;
      assert sv'[if j < i then j else j - 1].root == g;
    }
  }

  // The stack window has changed: no space notices.
  lemma {:induction false} HeldAfterStacks(m0: Memory, t0: Tables, m1: Memory, t1: Tables, kroot: nat,
                                           sv: seq<SpaceView>)
    requires Held(m0, t0, kroot, sv) && TabGrows(t0, t1, kroot)
    requires forall r :: IsRoot(t0, r) && r != kroot ==> UserHalfSame(m0, m1, r)
    ensures Held(m1, t1, kroot, sv)
  {
    hide Entry, UpperRights, AsAsked, AllWritable;
    forall i | 0 <= i < |sv| ensures HeldAt(m1, t1, kroot, sv[i]) {
      HeldParts(m0, t0, kroot, sv, i);
      forall v: nat | v < USER_LIMIT ensures CoveredAt(m1, sv[i].root, sv[i].vmas, v) {
        assert CoveredAt(m0, sv[i].root, sv[i].vmas, v);
        assert Entry(m1, sv[i].root, v) == Entry(m0, sv[i].root, v);
      }
    }
    forall g | IsRoot(t1, g) && g != kroot ensures RootListed(sv, g) {
      assert g in t0;
    }
  }

  lemma {:induction false} GrowthKeepsUsers(m0: Memory, t0: Tables, p0: Pages, m1: Memory, t1: Tables, p1: Pages,
                                            kroot: nat)
    requires KernelGrowth(m0, t0, p0, m1, t1, p1, kroot, STACK_SLOT) && IsRoot(t0, kroot) && TableWf(m0, t0, kroot)
    ensures forall r :: IsRoot(t0, r) && r != kroot ==> UserHalfSame(m0, m1, r)
    ensures TabGrows(t0, t1, kroot) && SlotsKept(m0, m1, kroot)
  {
    SlotsStay(m0, m1, t0, kroot);
    hide Entry, WalksKept, Idx, SlotsKept, TableWf, UpperTo, TableAt;
    UserIsNotHeap();
    forall r | IsRoot(t0, r) && r != kroot ensures UserHalfSame(m0, m1, r) {
      forall v: nat | v < USER_LIMIT
        ensures Entry(m1, r, v) == Entry(m0, r, v) && UpperRights(m1, r, v) == UpperRights(m0, r, v)
      {
        assert EntryKept(m0, m1, STACK_SLOT, r, v);
        UpperStays(m0, m1, t0, kroot, r, v, 3);
      }
    }
  }

  lemma GrowthParts(m0: Memory, t0: Tables, p0: Pages, m1: Memory, t1: Tables, p1: Pages, kroot: nat)
    requires KernelGrowth(m0, t0, p0, m1, t1, p1, kroot, STACK_SLOT)
    ensures MemGrows(m0, m1, t0, t1, kroot) && forall f :: f in p0 ==> f in p1
  {
  }

  lemma ShrunkParts(m0: Memory, m1: Memory, tab: Tables, kroot: nat, lo: nat, hi: nat)
    requires StackShrunk(m0, m1, tab, kroot, lo, hi)
    ensures MemGrows(m0, m1, tab, tab, kroot)
  {
  }

  // What kstack_init leaves alone: the heap's window and all spaces.
  lemma {:induction false} AfterStackGrowth(m0: Memory, t0: Tables, p0: Pages, m1: Memory, t1: Tables, p1: Pages,
                                            kroot: nat, n: nat, sv: seq<SpaceView>)
    requires KernelGrowth(m0, t0, p0, m1, t1, p1, kroot, STACK_SLOT) && IsRoot(t0, kroot) && WindowMapped(m0, kroot, n)
    requires Held(m0, t0, kroot, sv) && PagesWf(m0, t0, p0, kroot) && forall f :: f in p1 ==> f !in t1
    requires TableWf(m0, t0, kroot)
    ensures WindowMapped(m1, kroot, n) && Held(m1, t1, kroot, sv) && OthersKept(kroot, sv, -1, m0, m1)
    ensures TabGrows(t0, t1, kroot) && SlotsKept(m0, m1, kroot)
  {
    hide KernelGrowth, WindowMapped, Held, PagesWf, Entry, TabGrows, SlotsKept, MemGrows, SpacesKept, KernelKept,
      TableWf, UserHalfSame;
    GrowthKeepsUsers(m0, t0, p0, m1, t1, p1, kroot);
    HeldAfterStacks(m0, t0, m1, t1, kroot, sv);
    HeapOutlivesGrowth(m0, t0, p0, m1, t1, p1, kroot, n);
    GrowthParts(m0, t0, p0, m1, t1, p1, kroot);
    SpacesByStacks(m0, t0, p0, m1, t1, kroot, sv);
    KernelByGrowth(m0, t0, p0, m1, t1, p1, kroot, STACK_SLOT);
  }

  lemma {:induction false} ShrinkingKeepsUsers(m0: Memory, m1: Memory, tab: Tables, kroot: nat, lo: nat, hi: nat)
    requires StackShrunk(m0, m1, tab, kroot, lo, hi) && IsRoot(tab, kroot)
    ensures forall r :: IsRoot(tab, r) && r != kroot ==> UserHalfSame(m0, m1, r)
    ensures TabGrows(tab, tab, kroot) && SlotsKept(m0, m1, kroot)
  {
    SlotsStay(m0, m1, tab, kroot);
    hide Entry, WalksKept, SlotsKept, UpperRights;
    AllowsAll(m0, m1, tab, ALL_RIGHTS);
    forall r, v: nat | IsRoot(tab, r) && v < USER_LIMIT ensures Entry(m1, r, v) == Entry(m0, r, v) {
      assert EntryShrunk(m0, m1, r, v, lo, hi);
    }
  }

  lemma {:induction false} BootedAfterConfined(m0: Memory, t0: Tables, p0: Pages, m1: Memory, t1: Tables, p1: Pages,
                                               kroot: nat, r: nat, next: nat, owned: seq<nat>)
    requires Confined(m0, t0, p0, m1, t1, p1, kroot, r) && IsRoot(t0, kroot) && Booted(m0, kroot, next, owned)
    ensures Booted(m1, kroot, next, owned)
  {
    StacksOutliveConfined(m0, t0, p0, m1, t1, p1, kroot, r);
    WindowStays(m0, m1, kroot, next, owned);
    hide UnmappedFrom, StacksHeld;
  }

  lemma {:induction false} BootedAfterDropped(m0: Memory, t0: Tables, p0: Pages, m1: Memory, t1: Tables, p1: Pages,
                                              kroot: nat, r: nat, next: nat, owned: seq<nat>)
    requires Dropped(m0, t0, p0, m1, t1, p1, kroot, r) && IsRoot(t0, kroot) && t0[kroot].root == kroot && r != kroot
    requires Booted(m0, kroot, next, owned)
    ensures Booted(m1, kroot, next, owned)
  {
    StacksOutliveDropped(m0, t0, p0, m1, t1, p1, kroot, r);
    WindowStays(m0, m1, kroot, next, owned);
    hide UnmappedFrom, StacksHeld;
  }

  lemma {:induction false} BootedSlots(mem: Memory, tab: Tables, kroot: nat, next: nat, owned: seq<nat>)
    requires Booted(mem, kroot, next, owned)
    ensures SlotReady(mem, tab, kroot, HEAP_SLOT) && SlotReady(mem, tab, kroot, STACK_SLOT)
    ensures next <= SLOT_PAGES && UnmappedFrom(mem, kroot, next) && StacksHeld(mem, kroot, owned)
  {
  }

  lemma StacksOkMore(stacks: seq<nat>, broken: seq<nat>, guard: nat)
    requires StacksOk(stacks + broken, guard)
    ensures StacksOk(stacks + [guard + 1] + broken, guard + 1 + STACK_PAGES)
    ensures StacksOk(stacks + (broken + [guard + 1]), guard + 1 + STACK_PAGES)
  {
    var all, n := stacks + broken, |stacks|;
    var one, two := stacks + [guard + 1] + broken, stacks + (broken + [guard + 1]);
    forall i | 0 <= i < |two| ensures two[i] == if i < |all| then all[i] else guard + 1 {
    }
    assert one[n] == guard + 1;
    forall i | 0 <= i < |one| && i != n ensures one[i] == all[if i < n then i else i - 1]
        && one[i] + STACK_PAGES <= guard {
    }
    forall i, j | 0 <= i < j < |one| ensures one[i] + STACK_PAGES <= one[j] || one[j] + STACK_PAGES <= one[i] {
      if i != n && j != n {
        var k, l := if i < n then i else i - 1, if j < n then j else j - 1;
        assert all[k] + STACK_PAGES <= all[l] || all[l] + STACK_PAGES <= all[k];
      }
    }
  }

  lemma StackBelow(stacks: seq<nat>, broken: seq<nat>, j: nat, next: nat)
    requires StacksOk(stacks + broken, next) && j < |stacks|
    ensures stacks[j] + STACK_PAGES <= next
  {
    assert (stacks + broken)[j] == stacks[j];
  }

  lemma StacksOkLess(stacks: seq<nat>, broken: seq<nat>, j: nat, next: nat)
    requires StacksOk(stacks + broken, next) && j < |stacks|
    ensures StacksOk(stacks[..j] + stacks[j + 1..] + broken, next)
    ensures forall b :: b in stacks + broken && b != stacks[j] ==> b in stacks[..j] + stacks[j + 1..] + broken
  {
    var all, rest := stacks + broken, stacks[..j] + stacks[j + 1..] + broken;
    forall i | 0 <= i < |rest| ensures rest[i] == all[if i < j then i else i + 1] {
    }
    forall b | b in all && b != stacks[j] ensures b in rest {
      var i :| 0 <= i < |all| && all[i] == b;
      assert rest[if i < j then i else i - 1] == b;
    }
  }

  // ---- The holders of heap blocks through each operation ----

  // mm_map_range on space i: the holders keep their blocks, the new VMA included, if and only if no
  // kfree was made.
  lemma {:induction false} AfterMapIn(bs0: seq<Block>, mid: seq<Block>, ps: seq<nat>, bs1: seq<Block>,
                                      holders: Registry, sb: seq<SpaceBlocks>, others: map<nat, nat>, i: nat,
                                      before: seq<nat>, after: seq<nat>, block: nat)
    requires HeapHeld(bs0, holders, sb, others) && i < |sb| && sb[i].ptrs == before + [block] && |before| <= |after|
    requires VmaLinked(before, after, bs0, mid, ps) && OwnFrees(bs0, mid, ps, bs1, {})
    ensures var holders' := WithVmas(holders, sb[i].root, after[|before|..]);
            && (ps == [] ==> HeapHeld(bs1, holders', sb[i := SpaceBlocks(sb[i].root, after + [block])], others))
            && (ps == [] <==> AllInUse(bs1, Sizes(holders')))
  {
    hide InUse, UsedKept, HeapRuns.FreeListed, RegistryOk, WithVmas;
    var news := after[|before|..];
    var holders' := WithVmas(holders, sb[i].root, news);
    if after == before {
      assert news == [] && holders' == holders && sb[i := SpaceBlocks(sb[i].root, after + [block])] == sb;
      OwnNone(bs0, mid, bs1);
      HeldThroughGrowth(bs0, bs1, holders, sb, others);
    } else {
      var b := after[|before|];
      assert news == [b] && after == before + [b];
      if ps == [] {
        OwnNone(bs0, mid, bs1);
        assert AllNew(bs0, bs1, news, SIZEOF_VMA);
        VmasAdded(bs0, bs1, holders, sb, others, i, before, news, block);
      } else {
        FreeEachOne(mid, b);
        Lesser(mid, b, SIZEOF_VMA);
        var lo: nat, hi: nat :| Tiles(mid, lo, hi);
        OwnGone(mid, lo, hi, b);
        NotInUse(bs1, b, SIZEOF_VMA);
        assert b in holders' && Sizes(holders')[b] == SIZEOF_VMA;
      }
    }
  }

  // mm_copy into space j, which had only its mm_struct.
  lemma {:induction false} AfterCopying(bs0: seq<Block>, bs1: seq<Block>, holders: Registry, sb: seq<SpaceBlocks>,
                                        others: map<nat, nat>, j: nat, n: nat, blocks: seq<nat>, block: nat)
    requires HeapHeld(bs0, holders, sb, others) && j < |sb| && sb[j].ptrs == [block] && ChildBlocks(bs0, bs1, blocks, n)
    ensures HeapHeld(bs1, WithVmas(holders, sb[j].root, blocks), sb[j := SpaceBlocks(sb[j].root, blocks + [block])],
                     others)
    ensures Rest(WithVmas(holders, sb[j].root, blocks), sb[j].root) == Rest(holders, sb[j].root)
  {
    hide InUse, UsedKept, RegistryOk, WithVmas, Rest;
    VmasAdded(bs0, bs1, holders, sb, others, j, [], blocks, block);
    assert [] + blocks + [block] == blocks + [block];
    forall p | p in blocks ensures p !in holders {
      assert NewlyUsed(bs0, bs1, p, SIZEOF_VMA);
      NewIsUnheld(bs0, holders, p);
    }
  }

  // A copy into the last space that failed: everything of it is released.
  lemma {:induction false} AfterFailedCopy(bs0: seq<Block>, mid: seq<Block>, ps: seq<nat>, bs2: seq<Block>,
                                           holders: Registry, sb: seq<SpaceBlocks>, others: map<nat, nat>, j: nat,
                                           block: nat)
    requires HeapHeld(bs0, holders, sb, others) && j < |sb| && sb[j].ptrs == [block]
              && OwnFrees(bs0, mid, ps, bs2, {block})
    ensures var rest := Rest(holders, sb[j].root);
            && (AllInUse(bs2, Sizes(rest)) <==> Careful(mid, ps, rest.Keys))
            && (Careful(mid, ps, rest.Keys) ==> HeapHeld(bs2, rest, sb[..j] + sb[j + 1..], others))
  {
    hide InUse, UsedKept, RegistryOk, Rest, AllInUse, Careful, OwnFrees;
    var rest := Rest(holders, sb[j].root);
    SpaceDropped(holders, sb, others, j);
    RestInUse(bs0, holders, sb[j].root);
    assert block in sb[j].ptrs;
    OthersKeepIff(bs0, mid, ps, bs2, {block}, Sizes(rest));
  }

  lemma {:induction false} OwnAgain(bs0: seq<Block>, mid: seq<Block>, ps: seq<nat>, bs1: seq<Block>, block: nat,
                                    own: seq<nat>, bs2: seq<Block>)
    requires OwnFrees(bs0, mid, ps, bs1, {block}) && ChildFrees(ps, own) && bs2 == HeapRuns.FreeEach(bs1, own)
    ensures OwnFrees(bs0, mid, ps + own, bs2, {block})
  {
    hide OwnFrees, HeapRuns.FreeEach;
    MoreFrees(bs0, mid, ps, bs1, {block}, own, bs2);
  }

  lemma ChildKept(bs0: seq<Block>, bs1: seq<Block>, blocks: seq<nat>, n: nat)
    requires ChildBlocks(bs0, bs1, blocks, n)
    ensures UsedKept(bs0, bs1) && forall p :: p in blocks ==> !InUse(bs0, p, 0)
  {
    hide InUse, UsedKept;
    forall p | p in blocks ensures !InUse(bs0, p, 0) {
      assert NewlyUsed(bs0, bs1, p, SIZEOF_VMA);
    }
  }

  // Pointers that are new since bs1, and one that was new then.
  lemma {:induction false} NewSince(bs0: seq<Block>, bs1: seq<Block>, blocks: seq<nat>, block: nat)
    requires UsedKept(bs0, bs1) && !InUse(bs0, block, 0) && forall p :: p in blocks ==> !InUse(bs1, p, 0)
    ensures forall p :: p in blocks + [block] ==> !InUse(bs0, p, 0)
  {
    hide InUse;
    forall p | p in blocks ensures !InUse(bs0, p, 0) {
      assert !InUse(bs1, p, 0);
    }
  }

  // New blocks are released again.
  lemma {:induction false} OwnReleased(bs0: seq<Block>, bs1: seq<Block>, ps: seq<nat>, bs2: seq<Block>)
    requires UsedKept(bs0, bs1) && Tiled(bs1) && bs2 == HeapRuns.FreeEach(bs1, ps) && forall p :: p in ps ==>
              !InUse(bs0, p, 0)
    ensures OwnFrees(bs0, bs1, ps, bs2, {})
  {
    hide InUse, HeapRuns.FreeEach, Tiled, UsedKept;
  }

  // ---- The operations on one machine, for all spaces and stacks ----

  // The part of the system's invariant that memory decides.
  ghost predicate MemoryHeld(m: Machine, next: nat, owned: seq<nat>, sv: seq<SpaceView>)
    reads m
  {
    Booted(m.mem, m.kroot, next, owned) && Held(m.mem, m.tab, m.kroot, sv)
  }

  // mm_alloc
  method AllocSpace(k: KernelHeap, ghost next: nat, ghost owned: seq<nat>, ghost sv: seq<SpaceView>)
    returns (a: AllocResult, ghost mid: seq<Block>, ghost ps: seq<nat>)
    requires k.Valid() && MemoryHeld(k.m, next, owned, sv)
    modifies k`size, k`isFree, k`order, k`top, k.nodes, k.m`mem, k.m`tab, k.m`stray, k.m`failures, k.m`pages, k.m.pmm,
        k.m.pmm.bitmap
    ensures Losses(old(k.m.stray), old(k.m.failures), k.m.stray, k.m.failures)
    ensures !a.AllocFault? ==> k.Valid() && k.Listed() && k.m.stray == old(k.m.stray)
    ensures !a.AllocFault? ==> OwnFrees(old(k.Blocks()), mid, ps, k.Blocks(), {})
    ensures !a.AllocFault? ==> MemoryHeld(k.m, next, owned, if a.Space? then sv + [SpaceView(a.mm.root, [])] else sv)
    ensures a.Space? ==>
              && fresh(a.mm) && a.mm.vmas == [] && a.mm.blocks == [] && a.mm.root != 0 && !RootListed(sv, a.mm.root)
              && a.mm.root !in old(k.m.tab) && ps == []
              && UsedKept(old(k.Blocks()), k.Blocks()) && NewlyUsed(old(k.Blocks()), k.Blocks(), a.mm.block, SIZEOF_MM)
    // the spaces notice nothing, and the new one maps nothing
    ensures !a.AllocFault? ==>
              OthersKept(k.m.kroot, sv, -1, old(k.m.mem), k.m.mem) && forall f :: f in old(k.m.pages) ==> f in k.m.pages
    ensures a.Space? ==> SpaceOk(k.m.mem, k.m.tab, k.m.kroot, a.mm.root, [])
    ensures !a.Space? ==> k.m.pmm.freePages == 0
    ensures a.Space? ==> k.m.pmm.freePages <= old(k.m.pmm.freePages)
    ensures Fits(old(k.Blocks()), SIZEOF_MM) && old(k.m.pmm.freePages) >= 1 ==>
              && a.Space? && k.m.pmm.freePages == old(k.m.pmm.freePages) - 1 && k.top == old(k.top)
              && k.Blocks() == AllocAt(old(k.Blocks()), FirstFit(old(k.Blocks()), SIZEOF_MM, 0), SIZEOF_MM)
              && a.mm.block == FittingPtr(old(k.Blocks()), SIZEOF_MM)
  {
    hide Tiles, TableWf, PagesWf, Entry, WindowMapped, View, IntrusiveList.IsRing, Up, Idx, Pmm.CountFree, Pmm.BitsOf,
      Confined, SpaceOk, Covered, Held, Booted, AllocAt, Fits, OnlySpaceGrew, SlotReady, Dropped, VmasOk,
      KernelHeap.Valid, Machine.Valid, Losses, OwnFrees, UsedKept, InUse, FittingPtr, Tiled, HeapRuns.FreeEach;
    k.Parts();
    ghost var m0, t0, p0, kroot, bs0 := k.m.mem, k.m.tab, k.m.pages, k.m.kroot, k.Blocks();
    a, mid, ps := MmAlloc(k);
    if a.AllocFault? {
      return;
    }
    k.Parts();
    if a.NoSpace? {
      BootedAfterConfined(m0, t0, p0, k.m.mem, k.m.tab, k.m.pages, kroot, kroot, next, owned);
      HeldAfterKernel(m0, t0, p0, k.m.mem, k.m.tab, k.m.pages, kroot, sv);
      KernelIsNoSpace(m0, t0, kroot, sv);
      OthersByConfined(m0, t0, p0, k.m.mem, k.m.tab, k.m.pages, kroot, kroot, sv, -1);
      PagesStay(m0, t0, p0, k.m.mem, k.m.tab, k.m.pages, kroot, kroot);
    } else {
      var r := a.mm.root;
      BootedAfterConfined(m0, t0, p0, k.m.mem, k.m.tab, k.m.pages, kroot, r, next, owned);
      OkIsCovered(k.m.mem, k.m.tab, kroot, r, []);
      HeldAfterNew(m0, t0, p0, k.m.mem, k.m.tab, k.m.pages, kroot, sv, SpaceView(r, []));
      FreshIsUnlisted(m0, t0, kroot, sv, r);
      NotListedAt(sv, r);
      OthersByConfined(m0, t0, p0, k.m.mem, k.m.tab, k.m.pages, kroot, r, sv, -1);
      PagesStay(m0, t0, p0, k.m.mem, k.m.tab, k.m.pages, kroot, r);
      SpaceRoot(k.m.mem, k.m.tab, kroot, r, []);
      OwnNone(bs0, mid, k.Blocks());
    }
  }

  // mm_map_range on space i
  method MapSpace(k: KernelHeap, mm: Mm, va: nat, size: nat, vmFlags: nat, ghost next: nat, ghost owned: seq<nat>,
                  ghost sv: seq<SpaceView>, ghost i: nat)
    returns (r: Status, ghost mid: seq<Block>, ghost ps: seq<nat>)
    requires k.Valid() && MemoryHeld(k.m, next, owned, sv) && i < |sv| && sv[i] == SpaceView(mm.root, mm.vmas)
    requires NewRange(mm.vmas, va, size)
    modifies k`size, k`isFree, k`order, k`top, k.nodes, k.m`mem, k.m`tab, k.m`stray, k.m`failures, k.m`pages, k.m.pmm,
        k.m.pmm.bitmap
    modifies mm`vmas, mm`mapCount, mm`blocks
    ensures Losses(old(k.m.stray), old(k.m.failures), k.m.stray, k.m.failures)
    ensures r != Halted ==> k.Valid() && k.Listed() && MemoryHeld(k.m, next, owned,
                                                                  sv[i := SpaceView(mm.root, mm.vmas)])
    ensures r == Halted ==> k.m.pmm.freePages == 0
    ensures r != Halted ==>
              MapOutcome(r == Done, old(StockOf(k)), StockOf(k), va, size, vmFlags, old(mm.vmas), mm.vmas,
                         old(mm.blocks), mm.blocks, mid, ps)
    ensures size == 0 || Fits(old(k.Blocks()), SIZEOF_VMA) ==> r != Halted
    ensures r != Halted ==>
              && OthersKept(k.m.kroot, sv, i, old(k.m.mem), k.m.mem)
              && MapEffect(r == Done, k.m.failures == old(k.m.failures), old(k.m.mem), old(k.m.tab), old(k.m.pages),
                           k.m.mem, k.m.tab, k.m.kroot, mm.root, va, size, vmFlags, old(mm.vmas), mm.vmas)
  {
    hide Tiles, TableWf, PagesWf, Entry, WindowMapped, View, IntrusiveList.IsRing, Up, Idx, Pmm.CountFree, Pmm.BitsOf,
      Confined, SpaceOk, Covered, Held, Booted, AllocAt, Fits, OnlySpaceGrew, SlotReady, Dropped, VmasOk,
      KernelHeap.Valid, Machine.Valid, Losses, OwnFrees, UsedKept, InUse, FittingPtr, Tiled, HeapRuns.FreeEach,
      TailFree, KeptOutside, NewPagesIn, MappedOrZero, RangeMapped, RangeUnmapped, PageSpan, FirstPage, NeedBound,
      ApartFrom;
    k.Parts();
    LossesRefl(k.m.stray, k.m.failures);
    ghost var m0, t0, p0, kroot := k.m.mem, k.m.tab, k.m.pages, k.m.kroot;
    HeldParts(m0, t0, kroot, sv, i);
    if size > 0 {
      SpanFits(va, size);
      CoveredApart(m0, t0, kroot, mm.root, mm.vmas, FirstPage(va), PageSpan(va, size));
    }
    ghost var taken;
    r, taken, mid, ps := MapRange(k, mm, va, size, vmFlags);
    if r != Halted {
      if Fits(old(k.Blocks()), SIZEOF_VMA) {
        FirstIs(old(k.Blocks()), SIZEOF_VMA);
      }
      LossesNone(old(k.m.stray), old(k.m.failures), k.m.stray, k.m.failures);
      k.Parts();
      BootedAfterConfined(m0, t0, p0, k.m.mem, k.m.tab, k.m.pages, kroot, mm.root, next, owned);
      HeldAfterOne(m0, t0, p0, k.m.mem, k.m.tab, k.m.pages, kroot, sv, i, mm.vmas);
      OthersByConfined(m0, t0, p0, k.m.mem, k.m.tab, k.m.pages, kroot, mm.root, sv, i);
      ConfinedRoot(m0, t0, p0, k.m.mem, k.m.tab, k.m.pages, kroot, mm.root, mm.root);
      MapEffectIs(r == Done, k.m.failures == old(k.m.failures), m0, t0, p0, k.m.mem, k.m.tab, k.m.pages, kroot, mm.root,
                  va, size, vmFlags, old(mm.vmas), mm.vmas);
    }
  }

  // mm_copy of space i into the new space j. On failure j is gone, and sys_fork frees it once more.
  method CopySpace(k: KernelHeap, dst: Mm, src: Mm, ghost next: nat, ghost owned: seq<nat>, ghost sv: seq<SpaceView>,
                   ghost i: nat, ghost j: nat)
    returns (r: Status, ghost mid: seq<Block>, ghost ps: seq<nat>)
    requires k.Valid() && MemoryHeld(k.m, next, owned, sv) && i < |sv| && j < |sv| && i != j && dst != src
    requires sv[i] == SpaceView(src.root, src.vmas) && sv[j] == SpaceView(dst.root, dst.vmas) && dst.vmas == []
              && dst.blocks == []
    modifies k`size, k`isFree, k`order, k`top, k.nodes, k.m`mem, k.m`tab, k.m`stray, k.m`failures, k.m`pages, k.m.pmm,
        k.m.pmm.bitmap
    modifies dst`vmas, dst`mapCount, dst`blocks
    ensures Losses(old(k.m.stray), old(k.m.failures), k.m.stray, k.m.failures)
    ensures r != Halted ==> k.Valid() && k.Listed()
    ensures r == Done ==>
              && dst.vmas == src.vmas && ps == [] && MemoryHeld(k.m, next, owned,
                                                                sv[j := SpaceView(dst.root, dst.vmas)])
    ensures r == Failed ==>
              MemoryHeld(k.m, next, owned, Without(sv, j))
                  && OwnFrees(old(k.Blocks()), mid, ps, k.Blocks(), {dst.block})
    ensures r == Halted ==> k.m.pmm.freePages == 0
    ensures r != Halted ==>
              CopyOutcome(r == Done, old(StockOf(k)), StockOf(k), src.vmas, dst.blocks, mid, ps)
    ensures RoomFor(old(k.Blocks()), |src.vmas|) ==> r != Halted
    ensures r != Halted ==> OthersKept(k.m.kroot, sv, j, old(k.m.mem), k.m.mem)
    ensures r == Done && k.m.failures == old(k.m.failures) ==>
              ForkEffect(old(k.m.mem), old(k.m.tab), old(k.m.pages), k.m.mem, k.m.tab, k.m.kroot, src.root, dst.root,
                         src.vmas)
  {
    hide Tiles, TableWf, PagesWf, Entry, WindowMapped, View, IntrusiveList.IsRing, Up, Idx, Pmm.CountFree, Pmm.BitsOf,
      Confined, SpaceOk, Covered, Held, Booted, AllocAt, Fits, OnlySpaceGrew, SlotReady, Dropped, VmasOk,
      KernelHeap.Valid, Machine.Valid, Losses, OwnFrees, UsedKept, InUse, FittingPtr, Tiled, HeapRuns.FreeEach,
      AllocMany, ManyPtrs, AreasCopied, ChildPagesNew, CopyBound, RoomFor, ChildBlocks, ChildFrees, Stale;
    k.Parts();
    ghost var m0, t0, p0, kroot := k.m.mem, k.m.tab, k.m.pages, k.m.kroot;
    HeldParts(m0, t0, kroot, sv, i);
    HeldParts(m0, t0, kroot, sv, j);
    EmptyIsOk(m0, t0, kroot, dst.root);
    ghost var taken;
    r, taken, mid, ps := MmCopy(k, dst, src);
    if r == Halted {
      return;
    }
    k.Parts();
    if r == Done {
      BootedAfterConfined(m0, t0, p0, k.m.mem, k.m.tab, k.m.pages, kroot, dst.root, next, owned);
      HeldAfterOne(m0, t0, p0, k.m.mem, k.m.tab, k.m.pages, kroot, sv, j, dst.vmas);
      OthersByConfined(m0, t0, p0, k.m.mem, k.m.tab, k.m.pages, kroot, dst.root, sv, j);
      LossesNone(old(k.m.stray), old(k.m.failures), k.m.stray, k.m.failures);
    } else {
      BootedAfterDropped(m0, t0, p0, k.m.mem, k.m.tab, k.m.pages, kroot, dst.root, next, owned);
      HeldAfterFree(m0, t0, p0, k.m.mem, k.m.tab, k.m.pages, kroot, sv, j);
      OthersByDropped(m0, t0, p0, k.m.mem, k.m.tab, k.m.pages, kroot, dst.root, sv, j);
      ghost var bs1 := k.Blocks();
      MmFreeAgain(k, dst);
      k.Parts();
      OwnAgain(old(k.Blocks()), mid, ps, bs1, dst.block, dst.Pointers(), k.Blocks());
      ps := ps + dst.Pointers();
    }
  }

  // The same for the child that mm_alloc has just added, seen from the state s before that.
  method CopyToChild(k: KernelHeap, dst: Mm, src: Mm, ghost next: nat, ghost owned: seq<nat>, ghost s: SysState,
                     ghost i: nat)
    returns (r: Status, ghost mid: seq<Block>, ghost ps: seq<nat>)
    requires k.Valid() && k.Listed() && i < |s.views| && dst != src && dst.vmas == [] && dst.blocks == []
    requires MemoryHeld(k.m, next, owned, s.views + [SpaceView(dst.root, [])])
    requires s.views[i] == SpaceView(src.root, src.vmas)
    requires k.m.stray == s.stray && k.m.failures == s.failures && k.m.pmm.freePages <= s.free
    requires OthersKept(k.m.kroot, s.views, -1, s.mem, k.m.mem) && forall f :: f in s.pages ==> f in k.m.pages
    requires CopyEnough(s.blocks, s.free, src.vmas) ==>
               && k.m.pmm.freePages == s.free - 1 && k.top == s.top && k.Blocks() == AllocFirst(s.blocks, SIZEOF_MM)
               && dst.block == FirstPtr(s.blocks, SIZEOF_MM)
    modifies k`size, k`isFree, k`order, k`top, k.nodes, k.m`mem, k.m`tab, k.m`stray, k.m`failures, k.m`pages, k.m.pmm,
        k.m.pmm.bitmap
    modifies dst`vmas, dst`mapCount, dst`blocks
    ensures r != Halted ==> k.Valid() && k.Listed()
    ensures r == Done ==>
              && dst.vmas == src.vmas && ps == [] && ChildBlocks(old(k.Blocks()), k.Blocks(), dst.blocks, |dst.vmas|)
              && MemoryHeld(k.m, next, owned, s.views + [SpaceView(dst.root, dst.vmas)])
              && k.m.pmm.freePages <= s.free
    ensures r == Failed ==>
              MemoryHeld(k.m, next, owned, s.views) && OwnFrees(old(k.Blocks()), mid, ps, k.Blocks(), {dst.block})
    ensures r == Halted ==> k.m.pmm.freePages == 0
    ensures Losses(s.stray, s.failures, k.m.stray, k.m.failures)
    ensures r != Halted ==>
              && LostLast(s.failures, s.free, k.m.failures, k.m.pmm.freePages, r == Done)
              && OthersKept(k.m.kroot, s.views, -1, s.mem, k.m.mem)
    ensures r == Done && k.m.failures == s.failures ==>
              ForkEffect(s.mem, s.tab, s.pages, k.m.mem, k.m.tab, k.m.kroot, src.root, dst.root, src.vmas)
    ensures CopyEnough(s.blocks, s.free, src.vmas) ==>
              r == Done && CopyPlanned(s, src.vmas, 1 + CopyBound(src.vmas), StockOf(k), dst.Pointers())
  {
    hide Tiles, TableWf, PagesWf, Entry, WindowMapped, View, IntrusiveList.IsRing, Pmm.CountFree, Pmm.BitsOf,
      Confined, SpaceOk, Covered, Held, Booted, KernelHeap.Valid, Machine.Valid, Losses, OwnFrees, UsedKept, InUse,
      Tiled, CopyOutcome, LostLast, OthersKept, ForkEffect, RoomFor, CopyBound, AllocFirst, FirstPtr, Fits,
      CopyPlanned, ChildBlocks;
    ghost var n := |s.views|;
    ghost var sv, a := s.views + [SpaceView(dst.root, [])], StockOf(k);
    ghost var m0, t0, p0, kroot := k.m.mem, k.m.tab, k.m.pages, k.m.kroot;
    HeldParts(m0, t0, kroot, sv, i);
    r, mid, ps := CopySpace(k, dst, src, next, owned, sv, i, n);
    if r == Halted {
      return;
    }
    CopyLost(r == Done, s.failures, s.free, a, StockOf(k), src.vmas, dst.blocks, mid, ps);
    if CopyEnough(s.blocks, s.free, src.vmas) {
      CopyIsPlanned(r == Done, s, a, StockOf(k), src.vmas, dst.blocks, dst.block, mid, ps);
    }
    PrefixKept(k.m.kroot, s.views, sv, n, m0, k.m.mem);
    OthersTrans(k.m.kroot, s.views, -1, s.mem, m0, k.m.mem);
    if r == Done {
      CopyBlocks(a, StockOf(k), src.vmas, dst.blocks, mid, ps);
      assert sv[n := SpaceView(dst.root, dst.vmas)] == s.views + [SpaceView(dst.root, dst.vmas)];
      if k.m.failures == s.failures {
        OneOther(k.m.kroot, s.views, -1, s.mem, m0, i);
        ForkSince(s.mem, s.tab, s.pages, m0, t0, p0, k.m.mem, k.m.tab, kroot, src.root, dst.root, src.vmas);
      }
    } else {
      assert Without(sv, n) == s.views;
    }
  }

  // mm_free of space i
  method FreeOne(k: KernelHeap, mm: Mm, ghost next: nat, ghost owned: seq<nat>, ghost sv: seq<SpaceView>, ghost i: nat)
    requires k.Valid() && MemoryHeld(k.m, next, owned, sv) && i < |sv| && sv[i] == SpaceView(mm.root, mm.vmas)
    modifies k`size, k`isFree, k`order, k.nodes, k.m`tab, k.m`pages, k.m.pmm, k.m.pmm.bitmap
    ensures k.Valid() && k.Listed() && MemoryHeld(k.m, next, owned, Without(sv, i))
    ensures k.Blocks() == HeapRuns.FreeEach(old(k.Blocks()), mm.Pointers())
    ensures k.m.pmm.freePages >= old(k.m.pmm.freePages)
  {
    hide Tiles, TableWf, PagesWf, Entry, WindowMapped, View, IntrusiveList.IsRing, Up, Idx, Pmm.CountFree, Pmm.BitsOf,
      Confined, SpaceOk, Covered, Held, Booted, AllocAt, Fits, OnlySpaceGrew, SlotReady, Dropped, VmasOk,
      KernelHeap.Valid, Machine.Valid, Losses, OwnFrees, UsedKept, InUse, FittingPtr, Tiled, HeapRuns.FreeEach,
      Released, Belongs, WithoutSpace, PagesWithout, Stale;
    k.Parts();
    ghost var m0, t0, p0, kroot := k.m.mem, k.m.tab, k.m.pages, k.m.kroot;
    HeldParts(m0, t0, kroot, sv, i);
    ghost var log := MmFree(k, mm);
    k.Parts();
    BootedAfterDropped(m0, t0, p0, k.m.mem, k.m.tab, k.m.pages, kroot, mm.root, next, owned);
    HeldAfterFree(m0, t0, p0, k.m.mem, k.m.tab, k.m.pages, kroot, sv, i);
  }

  lemma {:induction false} RunIsReady(mem: Memory, p0: Pages, pages: Pages, kroot: nat, base: nat)
    ensures StackRun(mem, p0, pages, kroot, base, base + STACK_PAGES) ==> StackReady(mem, kroot, base)
  {
    hide Entry, Present, FrameOf;
    if StackRun(mem, p0, pages, kroot, base, base + STACK_PAGES) {
      forall j | base <= j < base + STACK_PAGES ensures KernelPage(Entry(mem, kroot, StackVpn(j))) {
        assert StackMapped(mem, p0, pages, kroot, j);
      }
    }
  }

  // kstack_init(KSTACK_SIZE); false for NULL
  method BuildStack(k: KernelHeap, ks: KernelStacks, ghost owned: seq<nat>, ghost sv: seq<SpaceView>)
    returns (ok: bool)
    requires k.Valid() && ks.m == k.m && MemoryHeld(k.m, ks.next, owned, sv) && StackFits(ks.next)
    modifies ks, k.m`mem, k.m`tab, k.m`stray, k.m`failures, k.m`pages, k.m.pmm, k.m.pmm.bitmap
    ensures k.Valid() && k.Listed() && k.Blocks() == old(k.Blocks()) && ks.next == old(ks.next) + 1 + STACK_PAGES
    ensures MemoryHeld(k.m, ks.next, owned + [old(ks.next) + 1], sv)
    ensures Losses(old(k.m.stray), old(k.m.failures), k.m.stray, k.m.failures)
    ensures LostLast(old(k.m.failures), old(k.m.pmm.freePages), k.m.failures, k.m.pmm.freePages, true)
    ensures k.m.pmm.freePages <= old(k.m.pmm.freePages) && (!ok ==> k.m.pmm.freePages == 0)
    ensures old(k.m.pmm.freePages) >= 4 * STACK_PAGES ==>
              ok && k.m.stray == old(k.m.stray) && k.m.pmm.freePages + 4 * STACK_PAGES >= old(k.m.pmm.freePages)
    ensures OthersKept(k.m.kroot, sv, -1, old(k.m.mem), k.m.mem)
    ensures ok && k.m.failures == old(k.m.failures) ==> StackReady(k.m.mem, k.m.kroot, old(ks.next) + 1)
  {
    hide Tiles, TableWf, PagesWf, Entry, WindowMapped, View, IntrusiveList.IsRing, Up, Idx, Pmm.CountFree, Pmm.BitsOf,
      Covered, Held, SlotReady, KernelGrowth, StackRun, UnmappedFrom, SlotsKept, TabGrows, StacksHeld, BelowKept,
      Losses, Present, OthersKept, LostLast, StackReady;
    k.Parts();
    ghost var m0, t0, p0, kroot := k.m.mem, k.m.tab, k.m.pages, k.m.kroot;
    ghost var s0, n0 := k.m.stray, k.m.failures;
    BootedSlots(m0, t0, kroot, ks.next, owned);
    var guard := ks.next;
    var r, built := ks.KstackInit(STACK_PAGES);
    k.m.Parts();
    AfterStackGrowth(m0, t0, p0, k.m.mem, k.m.tab, k.m.pages, kroot, k.PageCount(), sv);
    SlotsFilled(m0, k.m.mem, k.m.tab, kroot);
    StackAdded(m0, k.m.mem, kroot, guard, built, owned, owned + [guard + 1]);
    LossesNone(s0, n0, k.m.stray, k.m.failures);
    RunIsReady(k.m.mem, p0, k.m.pages, kroot, guard + 1);
    ok := r.Some?;
  }

  lemma MoreOwned(m: Machine, next: nat, owned: seq<nat>, owned': seq<nat>, sv: seq<SpaceView>)
    requires MemoryHeld(m, next, owned, sv) && forall b :: b in owned ==> b in owned'
    ensures MemoryHeld(m, next, owned', sv)
  {
    hide Held, UnmappedFrom, Entry, Present;
    forall j | 0 <= j < SLOT_PAGES && Present(Entry(m.mem, m.kroot, StackVpn(j))) ensures InStack(owned', j) {
      assert InStack(owned, j);
      var b :| b in owned && b <= j < b + STACK_PAGES;
      assert b in owned';
    }
  }

  ghost function ViewsOf(spaces: seq<Mm>): (sv: seq<SpaceView>)
    reads set s | s in spaces
    ensures |sv| == |spaces|
    ensures forall i :: 0 <= i < |sv| ==> sv[i] == SpaceView(spaces[i].root, spaces[i].vmas)
  {
    seq(|spaces|, i requires 0 <= i < |spaces| reads set s | s in spaces => SpaceView(spaces[i].root, spaces[i].vmas))
  }

  ghost function PointersOf(spaces: seq<Mm>): (sb: seq<SpaceBlocks>)
    reads set s | s in spaces
    ensures |sb| == |spaces|
    ensures forall i :: 0 <= i < |sb| ==> sb[i] == SpaceBlocks(spaces[i].root, spaces[i].Pointers())
  {
    seq(|spaces|, i requires 0 <= i < |spaces| reads set s | s in spaces =>
      SpaceBlocks(spaces[i].root, spaces[i].Pointers()))
  }

  lemma SpacesLess(spaces: seq<Mm>, i: nat)
    requires i < |spaces|
    ensures ViewsOf(spaces[..i] + spaces[i + 1..]) == Without(ViewsOf(spaces), i)
    ensures PointersOf(spaces[..i] + spaces[i + 1..]) == PointersOf(spaces)[..i] + PointersOf(spaces)[i + 1..]
  {
  }

  lemma SpacesMore(spaces: seq<Mm>, mm: Mm)
    ensures ViewsOf(spaces + [mm]) == ViewsOf(spaces) + [SpaceView(mm.root, mm.vmas)]
    ensures PointersOf(spaces + [mm]) == PointersOf(spaces) + [SpaceBlocks(mm.root, mm.Pointers())]
  {
  }

  lemma NotListedAt(sv: seq<SpaceView>, root: nat)
    requires !RootListed(sv, root)
    ensures forall i :: 0 <= i < |sv| ==> sv[i].root != root
  {
  }

  lemma KernelIsNoSpace(mem: Memory, tab: Tables, kroot: nat, sv: seq<SpaceView>)
    requires Held(mem, tab, kroot, sv)
    ensures forall i :: 0 <= i < |sv| ==> sv[i].root != kroot
  {
    hide Covered;
    forall i | 0 <= i < |sv| ensures sv[i].root != kroot {
      HeldParts(mem, tab, kroot, sv, i);
    }
  }

  lemma PagesStay(m0: Memory, t0: Tables, p0: Pages, m1: Memory, t1: Tables, p1: Pages, kroot: nat, r: nat)
    requires Confined(m0, t0, p0, m1, t1, p1, kroot, r)
    ensures forall f :: f in p0 ==> f in p1
  {
  }

  lemma NotListed(sv: seq<SpaceView>, sb: seq<SpaceBlocks>, root: nat)
    requires |sv| == |sb| && (forall i :: 0 <= i < |sv| ==> sb[i].root == sv[i].root) && !RootListed(sv, root)
    ensures forall i :: 0 <= i < |sb| ==> sb[i].root != root
  {
  }

  lemma SpacesForgotten(sv: seq<SpaceView>, sb: seq<SpaceBlocks>, i: nat, v: SpaceView, b: SpaceBlocks)
    requires i < |sv| == |sb|
    ensures Without(sv[i := v], i) == Without(sv, i) && sb[i := b][..i] + sb[i := b][i + 1..] == sb[..i] + sb[i + 1..]
  {
  }

  // Only space i has changed since the views were taken.
  lemma SpacesUpdated(spaces: seq<Mm>, sv: seq<SpaceView>, sb: seq<SpaceBlocks>, i: nat, mm: Mm)
    requires i < |spaces| == |sv| == |sb| && spaces[i] == mm
    requires forall j :: 0 <= j < |sv| && j != i ==> sv[j] == SpaceView(spaces[j].root, spaces[j].vmas)
    requires forall j :: 0 <= j < |sb| && j != i ==> sb[j] == SpaceBlocks(spaces[j].root, spaces[j].Pointers())
    ensures ViewsOf(spaces) == sv[i := SpaceView(mm.root, mm.vmas)]
    ensures PointersOf(spaces) == sb[i := SpaceBlocks(mm.root, mm.Pointers())]
  {
  }

  class MemorySystem {
    const k: KernelHeap
    const ks: KernelStacks
    var spaces: seq<Mm>
    var stacks: seq<nat>
    var broken: seq<nat>        // stacks that kstack_init could not finish; nobody gives them back
    var others: map<nat, nat>   // blocks of other callers of kmalloc, with the size they asked for
    ghost var holders: Registry
    // So far no kfree has found a held block right behind its own, and no failed mm_map_range has
    // left a released VMA linked.
    ghost var intact: bool

    constructor (heap: KernelHeap, kstacks: KernelStacks)
      requires heap.Valid() && kstacks.Valid() && kstacks.m == heap.m && kstacks.next == 1 + STACK_PAGES
      requires Booted(heap.m.mem, heap.m.kroot, kstacks.next, [1] + [])
      requires forall g :: IsRoot(heap.m.tab, g) ==> g == heap.m.kroot
      ensures k == heap && ks == kstacks && spaces == [] && stacks == [1] && broken == [] && others == map[]
      ensures Valid() && intact && holders == map[]
    {
      k, ks := heap, kstacks;
      spaces, stacks, broken, others := [], [1], [], map[];
      holders, intact := map[], true;
      new;
      hide Booted, Tiles, TableWf, PagesWf, View, IntrusiveList.IsRing, Pmm.CountFree, Pmm.BitsOf;
      NothingHeld(k.Blocks());
    }

    function Owned(): seq<nat>
      reads this`stacks, this`broken
    {
      stacks + broken
    }

    // Every space and every other caller has its own heap blocks, in use and large enough.
    ghost predicate Sound()
      requires k.Listed()
      reads this`spaces, this`holders, this`others, k, k.nodes, set s | s in spaces
    {
      HeapHeld(k.Blocks(), holders, PointersOf(spaces), others)
    }

    ghost predicate Valid()
      reads this, k, k.nodes, k.m, k.m.pmm, k.m.pmm.bitmap, ks, set s | s in spaces
    {
      && k.Valid() && ks.m == k.m && MemoryHeld(k.m, ks.next, Owned(), ViewsOf(spaces))
      && StacksOk(Owned(), ks.next)
      && (intact ==> Sound())
    }

    // The heap's blocks.
    ghost function Blocks(): seq<Block>
      requires Valid()
      reads this, k, k.nodes, k.m, k.m.pmm, k.m.pmm.bitmap, ks, set s | s in spaces
    {
      k.Blocks()
    }

    // What the invariant says of the parts.
    lemma Open()
      requires Valid()
      ensures k.Valid() && k.Listed() && Tiled(k.Blocks()) && ks.m == k.m && ks.Valid() && ks.next <= SLOT_PAGES
      ensures IsRoot(k.m.tab, k.m.kroot) && k.m.tab[k.m.kroot].root == k.m.kroot && 0 !in k.m.tab
      ensures TableWf(k.m.mem, k.m.tab, k.m.kroot) && PagesWf(k.m.mem, k.m.tab, k.m.pages, k.m.kroot)
      ensures forall f :: f in k.m.pages ==> f !in k.m.tab
      ensures MemoryHeld(k.m, ks.next, Owned(), ViewsOf(spaces)) && StacksHeld(k.m.mem, k.m.kroot, Owned())
      ensures StacksOk(Owned(), ks.next)
      ensures Blocks() == k.Blocks() && (intact ==> HeapHeld(k.Blocks(), holders, PointersOf(spaces), others))
    {
      hide UnmappedFrom, StacksHeld, Held, TableWf, PagesWf, Tiles, WindowMapped, View, HeapHeld, StacksOk;
      BootedSlots(k.m.mem, k.m.tab, k.m.kroot, ks.next, Owned());
      k.Parts();
    }

    // And that the parts make up the invariant.
    lemma Close()
      requires k.Valid() && k.Listed() && ks.m == k.m && MemoryHeld(k.m, ks.next, Owned(), ViewsOf(spaces))
      requires StacksOk(Owned(), ks.next)
      requires intact ==> HeapHeld(k.Blocks(), holders, PointersOf(spaces), others)
      ensures Valid() && Blocks() == k.Blocks()
    {
      hide Booted, StacksOk, Held, HeapHeld, KernelHeap.Valid;
    }

    // Different places of the list hold different spaces.
    lemma SpacesDiffer(i: nat)
      requires MemoryHeld(k.m, ks.next, Owned(), ViewsOf(spaces)) && i < |spaces|
      ensures forall j :: 0 <= j < |spaces| && j != i ==> spaces[j] != spaces[i]
    {
      hide Booted;
      var sv := ViewsOf(spaces);
      HeldParts(k.m.mem, k.m.tab, k.m.kroot, sv, i);
      forall j | 0 <= j < |spaces| && j != i ensures spaces[j] != spaces[i] {
        assert sv[j].root != sv[i].root;
      }
    }

    lemma BlocksTiled()
      requires Valid()
      ensures Tiled(Blocks())
    {
      hide Booted, StacksOk, Held, HeapHeld, KernelHeap.Valid, Tiled;
      k.Parts();
    }

    // The last space is new since s and empty.
    ghost predicate EmptyChild(s: SysState)
      reads this`spaces, this`holders, this`intact, k.m, k.m.pmm, set s | s in spaces
    {
      && spaces != []
      && var c := spaces[|spaces| - 1];
      && c.vmas == [] && c.blocks == [] && c.root != 0 && c.root !in s.tab && !InUse(s.blocks, c.block, 0)
      && ViewsOf(spaces) == s.views + [SpaceView(c.root, [])]
      && PointersOf(spaces) == s.ptrs + [SpaceBlocks(c.root, [c.block])]
      && holders == WithSpace(s.held, c.root, c.block) && (s.intact ==> Rest(holders, c.root) == s.held)
      && intact == s.intact && k.m.stray == s.stray && k.m.failures == s.failures && k.m.pmm.freePages <= s.free
      && SpaceOk(k.m.mem, k.m.tab, k.m.kroot, c.root, []) && OthersKept(k.m.kroot, s.views, -1, s.mem, k.m.mem)
      && forall f :: f in s.pages ==> f in k.m.pages
    }

    lemma ChildEmpty(s: SysState)
      requires spaces != [] && k.m.stray == s.stray && k.m.failures == s.failures && k.m.pmm.freePages <= s.free
      requires var c := spaces[|spaces| - 1];
               && c.vmas == [] && c.blocks == [] && c.root != 0 && c.root !in s.tab && !InUse(s.blocks, c.block, 0)
               && ViewsOf(spaces) == s.views + [SpaceView(c.root, [])]
               && PointersOf(spaces) == s.ptrs + [SpaceBlocks(c.root, [c.block])]
               && holders == WithSpace(s.held, c.root, c.block) && (s.intact ==> Rest(holders, c.root) == s.held)
      requires intact == s.intact && SpaceOk(k.m.mem, k.m.tab, k.m.kroot, spaces[|spaces| - 1].root, [])
      requires OthersKept(k.m.kroot, s.views, -1, s.mem, k.m.mem) && forall f :: f in s.pages ==> f in k.m.pages
      ensures EmptyChild(s)
    {
      hide SpaceOk, OthersKept;
    }

    // mm_alloc, in the state s. As for every operation here, `mid` is the heap after its kmalloc calls
    // and `ps` lists the kfree calls that follow.
    method NewSpace(ghost s: SysState) returns (r: Status, ghost mid: seq<Block>, ghost ps: seq<nat>)
      requires Valid() && s == State()
      modifies this`spaces, this`holders, this`intact
      modifies k`size, k`isFree, k`order, k`top, k.nodes, k.m`mem, k.m`tab, k.m`stray, k.m`failures, k.m`pages, k.m.pmm,
        k.m.pmm.bitmap
      ensures r != Halted ==> Valid() && k.m.stray == s.stray && k.m.failures == s.failures
      ensures intact ==> old(intact)
      ensures Losses(s.stray, s.failures, k.m.stray, k.m.failures)
      // one empty space more, in a block that nobody had
      ensures r == Done ==>
                && spaces != [] && spaces == old(spaces) + [spaces[|spaces| - 1]] && fresh(spaces[|spaces| - 1])
                && EmptyChild(s) && UsedKept(s.blocks, Blocks()) && ps == []
      ensures r != Done ==> spaces == old(spaces) && holders == old(holders) && k.m.pmm.freePages == 0
      ensures r == Failed ==>
                && SpacesAs(s) && OwnFrees(s.blocks, mid, ps, Blocks(), {})
                && OthersKept(k.m.kroot, s.views, -1, s.mem, k.m.mem)
                && intact == (old(intact) && Careful(mid, ps, holders.Keys))
                && (old(intact) ==> (intact <==> AllInUse(Blocks(), Sizes(holders))))
      ensures Fits(s.blocks, SIZEOF_MM) && s.free >= 1 ==>
                && r == Done && k.m.pmm.freePages == s.free - 1 && k.top == s.top
                && Blocks() == AllocFirst(s.blocks, SIZEOF_MM)
                && spaces[|spaces| - 1].block == FirstPtr(s.blocks, SIZEOF_MM)
    {
      hide KernelHeap.Valid, Machine.Valid, MemoryHeld, Held, Booted, HeapHeld, Valid, StacksOk, StacksHeld, Tiled,
        TableWf, UnmappedFrom, View, Tiles, AllocAt, Fits, FittingPtr, Losses, OwnFrees, UsedKept, InUse, AllInUse,
        Careful, Rest, WithVmas, VmaLinked, ChildBlocks, NewRange, PageSpan, FirstPage, NeedBound, HeapRuns.FreeEach,
        Pmm.CountFree, Pmm.BitsOf, AllocFirst, FirstPtr, EmptyChild, SpaceOk, OthersKept;
      Open();
      ghost var sv, sb := ViewsOf(spaces), PointersOf(spaces);
      var a;
      a, mid, ps := AllocSpace(k, ks.next, Owned(), sv);
      if a.AllocFault? {
        return Halted, mid, ps;
      }
      LossesNone(s.stray, s.failures, k.m.stray, k.m.failures);
      assert ViewsOf(spaces) == sv && PointersOf(spaces) == sb;
      if a.NoSpace? {
        CloseFailed(s, mid, ps);
        return Failed, mid, ps;
      }
      if Fits(s.blocks, SIZEOF_MM) {
        FirstIs(s.blocks, SIZEOF_MM);
      }
      KeepSpace(a.mm, s);
      return Done, mid, ps;
    }

    // The books after an operation that failed and gave back what it had got.
    ghost method CloseFailed(s: SysState, mid: seq<Block>, ps: seq<nat>)
      requires k.Valid() && k.Listed() && ks.m == k.m && MemoryHeld(k.m, ks.next, Owned(), s.views)
      requires StacksOk(Owned(), ks.next) && SpacesAs(s) && OwnFrees(s.blocks, mid, ps, k.Blocks(), {})
      requires intact ==> HeapHeld(s.blocks, holders, s.ptrs, others)
      modifies this`intact
      ensures Valid() && Blocks() == k.Blocks() && intact == (old(intact) && Careful(mid, ps, holders.Keys))
      ensures old(intact) ==> (intact <==> AllInUse(Blocks(), Sizes(holders)))
    {
      hide KernelHeap.Valid, Machine.Valid, MemoryHeld, HeapHeld, Valid, StacksOk, View, OwnFrees, AllInUse, Careful;
      if intact {
        FailureReleased(s.blocks, mid, ps, k.Blocks(), {}, holders, s.ptrs, others);
      }
      intact := intact && Careful(mid, ps, holders.Keys);
      Close();
    }

    // The books with one more space.
    method KeepSpace(mm: Mm, ghost s: SysState)
      requires k.Valid() && k.Listed() && ks.m == k.m
                && MemoryHeld(k.m, ks.next, Owned(), s.views + [SpaceView(mm.root, [])])
      requires StacksOk(Owned(), ks.next) && mm.vmas == [] && mm.blocks == [] && mm.root != 0
                && !RootListed(s.views, mm.root) && mm.root !in s.tab
      requires SpacesAs(s) && holders == s.held && intact == s.intact && others == s.others
      requires intact ==> HeapHeld(s.blocks, s.held, s.ptrs, others)
      requires UsedKept(s.blocks, k.Blocks()) && NewlyUsed(s.blocks, k.Blocks(), mm.block, SIZEOF_MM)
      requires k.m.stray == s.stray && k.m.failures == s.failures && k.m.pmm.freePages <= s.free
      requires SpaceOk(k.m.mem, k.m.tab, k.m.kroot, mm.root, []) && OthersKept(k.m.kroot, s.views, -1, s.mem, k.m.mem)
      requires forall f :: f in s.pages ==> f in k.m.pages
      modifies this`spaces, this`holders
      ensures Valid() && Blocks() == k.Blocks() && spaces == old(spaces) + [mm] && EmptyChild(s)
    {
      hide KernelHeap.Valid, Machine.Valid, MemoryHeld, HeapHeld, Valid, StacksOk, View, UsedKept, InUse, Rest,
        RootListed, EmptyChild, SpaceOk, OthersKept;
      if intact {
        NotListed(s.views, s.ptrs, mm.root);
        SpaceAdded(s.blocks, k.Blocks(), holders, s.ptrs, others, mm.root, mm.block);
      }
      assert mm.Pointers() == [mm.block];
      SpacesMore(spaces, mm);
      holders := WithSpace(holders, mm.root, mm.block);
      spaces := spaces + [mm];
      ChildEmpty(s);
      Close();
    }

    // mm_map_range on space i. A call that fails at a page leaves the space with a released VMA.
    method MapIn(i: nat, va: nat, size: nat, vmFlags: nat)
      returns (r: Status, ghost mid: seq<Block>, ghost ps: seq<nat>)
      requires Valid() && i < |spaces| && NewRange(spaces[i].vmas, va, size)
      modifies this`holders, this`intact, spaces[i]
      modifies k`size, k`isFree, k`order, k`top, k.nodes, k.m`mem, k.m`tab, k.m`stray, k.m`failures, k.m`pages, k.m.pmm,
        k.m.pmm.bitmap
      ensures r != Halted ==> Valid()
      ensures intact ==> old(intact)
      ensures Losses(old(k.m.stray), old(k.m.failures), k.m.stray, k.m.failures)
      ensures r == Halted ==> k.m.pmm.freePages == 0
      ensures r != Halted ==>
                MapOutcome(r == Done, old(StockOf(k)), StockOf(k), va, size, vmFlags, old(spaces[i].vmas),
                           spaces[i].vmas, old(spaces[i].blocks), spaces[i].blocks, mid, ps)
      ensures r != Halted ==>
                && holders == WithVmas(old(holders), spaces[i].root, spaces[i].blocks[|old(spaces[i].blocks)|..])
                && ViewsOf(spaces) == old(ViewsOf(spaces))[i := SpaceView(spaces[i].root, spaces[i].vmas)]
                && PointersOf(spaces) == old(PointersOf(spaces))[i := SpaceBlocks(spaces[i].root, spaces[i].Pointers())]
      ensures r != Halted ==>
                && OthersKept(k.m.kroot, old(ViewsOf(spaces)), i, old(k.m.mem), k.m.mem)
                && MapEffect(r == Done, k.m.failures == old(k.m.failures), old(k.m.mem), old(k.m.tab), old(k.m.pages),
                             k.m.mem, k.m.tab, k.m.kroot, spaces[i].root, va, size, vmFlags, old(spaces[i].vmas),
                             spaces[i].vmas)
      ensures r != Halted ==> |old(spaces[i].blocks)| <= |spaces[i].blocks|
      ensures size == 0 || Fits(old(Blocks()), SIZEOF_VMA) ==> r != Halted
      ensures r != Halted ==> intact == (old(intact) && ps == [])
      ensures r != Halted && old(intact) ==> (intact <==> AllInUse(Blocks(), Sizes(holders)))
    {
      hide KernelHeap.Valid, Machine.Valid, MemoryHeld, Held, Booted, HeapHeld, Valid, StacksOk, StacksHeld, Tiled,
        TableWf, UnmappedFrom, View, Tiles, AllocAt, Fits, FittingPtr, Losses, OwnFrees, UsedKept, InUse, AllInUse,
        Careful, Rest, WithVmas, VmaLinked, ChildBlocks, NewRange, PageSpan, FirstPage, NeedBound, HeapRuns.FreeEach,
        Pmm.CountFree, Pmm.BitsOf;
      Open();
      ghost var bs0, sv, sb := k.Blocks(), ViewsOf(spaces), PointersOf(spaces);
      var mm := spaces[i];
      SpacesDiffer(i);
      ghost var before := mm.blocks;
      r, mid, ps := MapSpace(k, mm, va, size, vmFlags, ks.next, Owned(), sv, i);
      if r == Halted {
        return;
      }
      SpacesUpdated(spaces, sv, sb, i, mm);
      KeepMapping(i, mm, bs0, mid, ps, before, sb);
    }

    // The books after an mm_map_range that linked a VMA or none.
    ghost method KeepMapping(i: nat, mm: Mm, bs0: seq<Block>, mid: seq<Block>, ps: seq<nat>, before: seq<nat>,
                             sb: seq<SpaceBlocks>)
      requires k.Valid() && k.Listed() && ks.m == k.m && MemoryHeld(k.m, ks.next, Owned(), ViewsOf(spaces))
                && StacksOk(Owned(), ks.next)
      requires i < |sb| && sb[i] == SpaceBlocks(mm.root, before + [mm.block]) && |before| <= |mm.blocks|
      requires PointersOf(spaces) == sb[i := SpaceBlocks(mm.root, mm.Pointers())]
      requires VmaLinked(before, mm.blocks, bs0, mid, ps) && OwnFrees(bs0, mid, ps, k.Blocks(), {})
      requires intact ==> HeapHeld(bs0, holders, sb, others)
      modifies this`holders, this`intact
      ensures Valid() && Blocks() == k.Blocks() && intact == (old(intact) && ps == [])
      ensures holders == WithVmas(old(holders), mm.root, mm.blocks[|before|..])
      ensures old(intact) ==> (intact <==> AllInUse(Blocks(), Sizes(holders)))
    {
      hide KernelHeap.Valid, Machine.Valid, MemoryHeld, HeapHeld, Valid, StacksOk, View, UsedKept, InUse, AllInUse,
        WithVmas, VmaLinked, OwnFrees;
      if intact {
        AfterMapIn(bs0, mid, ps, k.Blocks(), holders, sb, others, i, before, mm.blocks, mm.block);
      }
      holders := WithVmas(holders, mm.root, mm.blocks[|before|..]);
      intact := intact && ps == [];
      Close();
    }

    // The last space is new since s and has these areas, all in blocks that nobody had.
    ghost predicate ChildAdded(s: SysState, vmas: seq<Vma>)
      reads this`spaces, this`holders, set s | s in spaces
    {
      && spaces != []
      && var c := spaces[|spaces| - 1];
      && ViewsOf(spaces) == s.views + [SpaceView(c.root, vmas)]
      && PointersOf(spaces) == s.ptrs + [SpaceBlocks(c.root, c.Pointers())]
      && c.root != 0 && c.root !in s.tab && |c.blocks| == |vmas|
      && (forall p :: p in c.Pointers() ==> !InUse(s.blocks, p, 0))
      && holders == WithVmas(WithSpace(s.held, c.root, c.block), c.root, c.blocks)
      && (s.intact ==> Rest(holders, c.root) == s.held)
    }

    // Its memory is that of a fork of space i.
    ghost predicate ChildCopied(s: SysState, i: nat)
      requires i < |s.views|
      reads this`spaces, k.m, set s | s in spaces
    {
      spaces != [] && ForkEffect(s.mem, s.tab, s.pages, k.m.mem, k.m.tab, k.m.kroot, s.views[i].root,
                                 spaces[|spaces| - 1].root, s.views[i].vmas)
    }

    ghost predicate ChildPlanned(s: SysState, vmas: seq<Vma>, frames: nat)
      reads this`spaces, k, k.nodes, k.m, k.m.pmm, set s | s in spaces
    {
      k.Listed() && spaces != [] && CopyPlanned(s, vmas, frames, StockOf(k), spaces[|spaces| - 1].Pointers())
    }

    lemma LastDropped(before: seq<Mm>, mm: Mm)
      ensures (before + [mm])[..|before|] == before
    {
    }

    lemma LastReplaced(sv: seq<SpaceView>, v: SpaceView, w: SpaceView)
      ensures (sv + [v])[|sv| := w] == sv + [w]
    {
    }

    lemma ChildIs(s: SysState, vmas: seq<Vma>)
      requires spaces != [] && |s.views| == |s.ptrs|
      requires var c := spaces[|spaces| - 1];
               && c.vmas == vmas && c.root != 0 && c.root !in s.tab && |c.blocks| == |vmas|
               && ViewsOf(spaces) == (s.views + [SpaceView(c.root, [])])[|s.views| := SpaceView(c.root, vmas)]
               && PointersOf(spaces) ==
                  (s.ptrs + [SpaceBlocks(c.root, [c.block])])[|s.ptrs| := SpaceBlocks(c.root, c.Pointers())]
               && holders == WithVmas(WithSpace(s.held, c.root, c.block), c.root, c.blocks)
               && (s.intact ==> Rest(holders, c.root) == s.held)
      requires forall p :: p in spaces[|spaces| - 1].Pointers() ==> !InUse(s.blocks, p, 0)
      ensures ChildAdded(s, vmas)
    {
      hide InUse, WithVmas;
    }

    // The spaces at the other places are as when the views were taken.
    ghost predicate OthersSame(sv: seq<SpaceView>, sb: seq<SpaceBlocks>, j: nat)
      reads this`spaces, set s | s in spaces
    {
      && |sv| == |sb| == |spaces|
      && (forall n :: 0 <= n < |sv| && n != j ==> sv[n] == SpaceView(spaces[n].root, spaces[n].vmas))
      && (forall n :: 0 <= n < |sb| && n != j ==> sb[n] == SpaceBlocks(spaces[n].root, spaces[n].Pointers()))
    }

    // mm_copy of space i into the last one, which mm_alloc has just made. On failure that space is gone,
    // and the caller's free_proc frees it a second time.
    method CopyInto(i: nat, ghost s: SysState) returns (r: Status, ghost mid: seq<Block>, ghost ps: seq<nat>)
      requires Valid() && EmptyChild(s) && |s.views| == |s.ptrs| && i + 1 < |spaces| && UsedKept(s.blocks, Blocks())
      requires Losses(s.stray, s.failures, k.m.stray, k.m.failures)
      requires CopyEnough(s.blocks, s.free, s.views[i].vmas) ==>
                && k.m.pmm.freePages == s.free - 1 && k.top == s.top && Blocks() == AllocFirst(s.blocks, SIZEOF_MM)
                && spaces[|spaces| - 1].block == FirstPtr(s.blocks, SIZEOF_MM)
      modifies this`spaces, this`holders, this`intact
      modifies spaces[|spaces| - 1]
      modifies k`size, k`isFree, k`order, k`top, k.nodes, k.m`mem, k.m`tab, k.m`stray, k.m`failures, k.m`pages, k.m.pmm,
        k.m.pmm.bitmap
      ensures r != Halted ==> Valid()
      ensures intact ==> old(intact)
      ensures r != Halted ==> OthersKept(k.m.kroot, s.views, -1, s.mem, k.m.mem)
      ensures r == Done && k.m.failures == s.failures ==> ChildCopied(s, i)
      ensures Losses(s.stray, s.failures, k.m.stray, k.m.failures)
      ensures r != Halted ==> LostLast(s.failures, s.free, k.m.failures, k.m.pmm.freePages, r == Done)
      ensures r != Failed ==> spaces == old(spaces)
      ensures r == Done ==>
                && ChildAdded(s, s.views[i].vmas)
                && ps == [] && intact == s.intact && UsedKept(s.blocks, Blocks()) && k.m.pmm.freePages <= s.free
      ensures r == Failed ==> spaces == old(spaces)[..|old(spaces)| - 1] && OwnFrees(s.blocks, mid, ps, Blocks(), {})
      ensures r == Failed && s.intact ==>
                && holders == s.held
                && (intact <==> Careful(mid, ps, holders.Keys)) && (intact <==> AllInUse(Blocks(), Sizes(holders)))
      ensures r == Halted ==> k.m.pmm.freePages == 0
      ensures CopyEnough(s.blocks, s.free, s.views[i].vmas) ==>
                r == Done && ChildPlanned(s, s.views[i].vmas, 1 + CopyBound(s.views[i].vmas))
    {
      hide KernelHeap.Valid, Machine.Valid, MemoryHeld, Held, Booted, HeapHeld, Valid, StacksOk, StacksHeld, Tiled,
        TableWf, UnmappedFrom, View, Tiles, AllocAt, Fits, FittingPtr, Losses, OwnFrees, UsedKept, InUse, AllInUse,
        Careful, Rest, WithVmas, VmaLinked, ChildBlocks, NewRange, PageSpan, FirstPage, NeedBound, HeapRuns.FreeEach,
        Pmm.CountFree, Pmm.BitsOf, CopyOutcome, CopyPlanned, LostLast, ChildAdded, RoomFor, AllocFirst, FirstPtr,
        CopyBound, OthersKept, ForkEffect, SpaceOk, KernelHeap.Listed, CopyEnough, Owned;
      Open();
      ghost var vmas, bs0, sv, sb := s.views[i].vmas, k.Blocks(), ViewsOf(spaces), PointersOf(spaces);
      var j := |spaces| - 1;
      var src, dst := spaces[i], spaces[j];
      assert sv[i] == s.views[i];
      assert sv == s.views + [SpaceView(dst.root, [])] && sb == s.ptrs + [SpaceBlocks(dst.root, [dst.block])];
      SpacesDiffer(j);
      r, mid, ps := CopyToChild(k, dst, src, ks.next, Owned(), s, i);
      if r == Halted {
        return;
      }
      if r == Done {
        KeepChild(j, dst, s, vmas, bs0, sv, sb);
      } else {
        LoseChild(j, dst, s, bs0, mid, ps, sv, sb);
      }
    }

    // The books after a copy that succeeded.
    ghost method KeepChild(j: nat, dst: Mm, s: SysState, vmas: seq<Vma>, bs0: seq<Block>, sv: seq<SpaceView>,
                           sb: seq<SpaceBlocks>)
      requires k.Valid() && k.Listed() && ks.m == k.m
      requires MemoryHeld(k.m, ks.next, Owned(), s.views + [SpaceView(dst.root, vmas)])
                && StacksOk(Owned(), ks.next)
      requires j + 1 == |spaces| && spaces[j] == dst && j == |s.views| == |s.ptrs| && dst.vmas == vmas
      requires OthersSame(sv, sb, j)
      requires sv == s.views + [SpaceView(dst.root, [])] && sb == s.ptrs + [SpaceBlocks(dst.root, [dst.block])]
      requires holders == WithSpace(s.held, dst.root, dst.block) && (s.intact ==> Rest(holders, dst.root) == s.held)
      requires dst.root != 0 && dst.root !in s.tab && !InUse(s.blocks, dst.block, 0) && UsedKept(s.blocks, bs0)
      requires ChildBlocks(bs0, k.Blocks(), dst.blocks, |vmas|) && intact == s.intact
      requires intact ==> HeapHeld(bs0, holders, sb, others)
      modifies this`holders
      ensures Valid() && Blocks() == k.Blocks() && UsedKept(s.blocks, Blocks()) && ChildAdded(s, vmas)
    {
      hide KernelHeap.Valid, Machine.Valid, MemoryHeld, HeapHeld, Valid, StacksOk, View, UsedKept, InUse, Rest,
        WithVmas, ChildAdded;
      SpacesUpdated(spaces, sv, sb, j, dst);
      LastReplaced(s.views, SpaceView(dst.root, []), SpaceView(dst.root, vmas));
      ChildKept(bs0, k.Blocks(), dst.blocks, |vmas|);
      UsedTrans(s.blocks, bs0, k.Blocks());
      NewSince(s.blocks, bs0, dst.blocks, dst.block);
      if intact {
        AfterCopying(bs0, k.Blocks(), holders, sb, others, j, |vmas|, dst.blocks, dst.block);
      }
      holders := WithVmas(holders, dst.root, dst.blocks);
      ChildIs(s, vmas);
      Close();
    }

    // The books after one that failed: the child, released twice, is gone.
    method LoseChild(j: nat, dst: Mm, ghost s: SysState, ghost bs0: seq<Block>, ghost mid: seq<Block>,
                     ghost ps: seq<nat>, ghost sv: seq<SpaceView>, ghost sb: seq<SpaceBlocks>)
      requires k.Valid() && k.Listed() && ks.m == k.m && MemoryHeld(k.m, ks.next, Owned(), s.views)
                && StacksOk(Owned(), ks.next)
      requires j + 1 == |spaces| && spaces[j] == dst && j == |s.views| == |s.ptrs| && OthersSame(sv, sb, j)
      requires sv == s.views + [SpaceView(dst.root, [])] && sb == s.ptrs + [SpaceBlocks(dst.root, [dst.block])]
      requires UsedKept(s.blocks, bs0) && OwnFrees(bs0, mid, ps, k.Blocks(), {dst.block})
      requires !InUse(s.blocks, dst.block, 0) && intact == s.intact && (intact ==> HeapHeld(bs0, holders, sb, others))
      modifies this`spaces, this`holders, this`intact
      ensures Valid() && Blocks() == k.Blocks() && spaces == old(spaces)[..|old(spaces)| - 1]
      ensures OwnFrees(s.blocks, mid, ps, Blocks(), {}) && (intact ==> old(intact))
      ensures holders == Rest(old(holders), dst.root)
      ensures old(intact) ==>
                (intact <==> Careful(mid, ps, holders.Keys)) && (intact <==> AllInUse(Blocks(), Sizes(holders)))
    {
      hide KernelHeap.Valid, Machine.Valid, MemoryHeld, HeapHeld, Valid, StacksOk, View, OwnFrees, AllInUse, Careful,
        Rest, UsedKept, InUse;
      EarlierGrowth(s.blocks, bs0, mid, ps, k.Blocks(), {dst.block});
      if intact {
        AfterFailedCopy(bs0, mid, ps, k.Blocks(), holders, sb, others, j, dst.block);
      }
      SpacesUpdated(spaces, sv, sb, j, dst);
      SpacesLess(spaces, j);
      SpacesForgotten(sv, sb, j, SpaceView(dst.root, dst.vmas), SpaceBlocks(dst.root, dst.Pointers()));
      assert Without(sv, j) == s.views && spaces[..j] + spaces[j + 1..] == spaces[..j];
      spaces := spaces[..j];
      holders := Rest(holders, dst.root);
      intact := intact && Careful(mid, ps, holders.Keys);
      Close();
    }

    // mm_free of space i. The other holders keep their blocks if and only if no kfree finds one of
    // them right behind the block it releases.
    method FreeSpaceAt(i: nat)
      requires Valid() && i < |spaces|
      modifies this`spaces, this`holders, this`intact
      modifies k`size, k`isFree, k`order, k.nodes, k.m`tab, k.m`pages, k.m.pmm, k.m.pmm.bitmap
      ensures Valid() && spaces == old(spaces)[..i] + old(spaces)[i + 1..]
      ensures ViewsOf(spaces) == Without(old(ViewsOf(spaces)), i)
      ensures PointersOf(spaces) == old(PointersOf(spaces))[..i] + old(PointersOf(spaces))[i + 1..]
      ensures holders == Rest(old(holders), old(spaces)[i].root)
      ensures Blocks() == HeapRuns.FreeEach(old(Blocks()), old(spaces[i].Pointers()))
      ensures intact == (old(intact) && Careful(old(Blocks()), old(spaces[i].Pointers()), holders.Keys))
      ensures old(intact) ==> (intact <==> AllInUse(Blocks(), Sizes(holders)))
      ensures k.m.pmm.freePages >= old(k.m.pmm.freePages)
    {
      hide KernelHeap.Valid, Machine.Valid, MemoryHeld, Held, Booted, HeapHeld, Valid, StacksOk, StacksHeld, Tiled,
        TableWf, UnmappedFrom, View, Tiles, AllocAt, Fits, FittingPtr, Losses, OwnFrees, UsedKept, InUse, AllInUse,
        Careful, Rest, WithVmas, VmaLinked, ChildBlocks, NewRange, PageSpan, FirstPage, NeedBound, HeapRuns.FreeEach,
        Pmm.CountFree, Pmm.BitsOf;
      Open();
      ghost var bs0, sv, sb := k.Blocks(), ViewsOf(spaces), PointersOf(spaces);
      k.HeapTiles();
      var mm := spaces[i];
      FreeOne(k, mm, ks.next, Owned(), sv, i);
      assert ViewsOf(spaces) == sv && PointersOf(spaces) == sb;
      LoseSpace(i, mm, bs0, sv, sb);
    }

    // The books after the release of space i.
    method LoseSpace(i: nat, mm: Mm, ghost bs0: seq<Block>, ghost sv: seq<SpaceView>, ghost sb: seq<SpaceBlocks>)
      requires k.Valid() && k.Listed() && ks.m == k.m && i < |spaces| && StacksOk(Owned(), ks.next)
      requires ViewsOf(spaces) == sv && PointersOf(spaces) == sb && MemoryHeld(k.m, ks.next, Owned(), Without(sv, i))
      requires sb[i] == SpaceBlocks(mm.root, mm.Pointers()) && Tiles(bs0, HEAP_BASE, k.top)
      requires k.Blocks() == HeapRuns.FreeEach(bs0, mm.Pointers())
      requires intact ==> HeapHeld(bs0, holders, sb, others)
      modifies this`spaces, this`holders, this`intact
      ensures Valid() && Blocks() == k.Blocks() && spaces == old(spaces)[..i] + old(spaces)[i + 1..]
      ensures ViewsOf(spaces) == Without(sv, i) && PointersOf(spaces) == sb[..i] + sb[i + 1..]
      ensures holders == Rest(old(holders), mm.root)
      ensures intact == (old(intact) && Careful(bs0, mm.Pointers(), holders.Keys))
      ensures old(intact) ==> (intact <==> AllInUse(Blocks(), Sizes(holders)))
    {
      hide KernelHeap.Valid, Machine.Valid, MemoryHeld, HeapHeld, Valid, StacksOk, View, AllInUse, Careful, Rest,
        Tiles, HeapRuns.FreeEach;
      if intact {
        SpaceReleased(bs0, HEAP_BASE, k.top, k.Blocks(), holders, sb, others, i);
      }
      SpacesLess(spaces, i);
      holders := Rest(holders, mm.root);
      intact := intact && Careful(bs0, mm.Pointers(), holders.Keys);
      spaces := spaces[..i] + spaces[i + 1..];
      Close();
    }

    // kstack_init(KSTACK_SIZE); false for NULL. The pages of a stack that could not be finished stay
    // mapped.
    method NewStack() returns (ok: bool)
      requires Valid() && ks.next + 1 + STACK_PAGES <= SLOT_PAGES
      modifies this`stacks, this`broken, ks
      modifies k.m`mem, k.m`tab, k.m`stray, k.m`failures, k.m`pages, k.m.pmm, k.m.pmm.bitmap
      ensures Valid() && ks.next == old(ks.next) + 1 + STACK_PAGES && Blocks() == old(Blocks())
      ensures Losses(old(k.m.stray), old(k.m.failures), k.m.stray, k.m.failures)
      ensures stacks == if ok then old(stacks) + [old(ks.next) + 1] else old(stacks)
      ensures broken == if ok then old(broken) else old(broken) + [old(ks.next) + 1]
      ensures old(k.m.pmm.freePages) >= 4 * STACK_PAGES ==>
                ok && k.m.stray == old(k.m.stray) && k.m.pmm.freePages + 4 * STACK_PAGES >= old(k.m.pmm.freePages)
      ensures LostLast(old(k.m.failures), old(k.m.pmm.freePages), k.m.failures, k.m.pmm.freePages, true)
      ensures k.m.pmm.freePages <= old(k.m.pmm.freePages)
      ensures OthersKept(k.m.kroot, old(ViewsOf(spaces)), -1, old(k.m.mem), k.m.mem)
      ensures !ok ==> k.m.pmm.freePages == 0
      ensures ok && k.m.failures == old(k.m.failures) ==> StackReady(k.m.mem, k.m.kroot, old(ks.next) + 1)
    {
      hide StackReady, Valid, KernelHeap.Valid, Machine.Valid, MemoryHeld, StacksOk, HeapHeld, View, Losses, LostLast,
        OthersKept, TableWf, PagesWf, StacksHeld, Tiled, KernelStacks.Valid;
      Open();
      ghost var sv, sb, owned := ViewsOf(spaces), PointersOf(spaces), Owned();
      var guard := ks.next;
      ok := BuildStack(k, ks, owned, sv);
      if ok {
        stacks := stacks + [guard + 1];
      } else {
        broken := broken + [guard + 1];
      }
      StacksOkMore(old(stacks), old(broken), guard);
      MoreOwned(k.m, ks.next, owned + [guard + 1], Owned(), sv);
      assert ViewsOf(spaces) == sv && PointersOf(spaces) == sb;
      Close();
    }

    // kstack_free of stack j
    method FreeStack(j: nat)
      requires Valid() && j < |stacks|
      modifies this`stacks, k.m`mem, k.m`stray, k.m`pages, k.m.pmm, k.m.pmm.bitmap
      ensures Valid() && stacks == old(stacks)[..j] + old(stacks)[j + 1..] && k.m.stray == old(k.m.stray)
                && Blocks() == old(Blocks())
      ensures old(k.m.pmm.freePages) <= k.m.pmm.freePages <= old(k.m.pmm.freePages) + STACK_PAGES
      ensures SpacesKept(old(ViewsOf(spaces)), -1, old(k.m.mem), k.m.mem)
      ensures KernelKept(old(k.m.mem), k.m.mem, k.m.kroot, old(stacks)[j])
    {
      hide Tiles, TableWf, PagesWf, Entry, WindowMapped, View, IntrusiveList.IsRing, Up, Idx, Pmm.CountFree,
        Pmm.BitsOf, Covered, Held, SlotReady, StackShrunk, UnmappedFrom, SlotsKept, TabGrows, WithoutStack, Present,
        StacksHeld, SpacesKept, KernelKept, HeapHeld, Valid, StacksOk, Tiled;
      Open();
      ghost var m0, p0, kroot, sv, sb, owned := k.m.mem, k.m.pages, k.m.kroot, ViewsOf(spaces), PointersOf(spaces),
          Owned();
      StackBelow(stacks, broken, j, ks.next);
      var base := stacks[j];
      ks.KstackFree(base);
      ShrinkingKeepsUsers(m0, k.m.mem, k.m.tab, kroot, base, base + STACK_PAGES);
      HeldAfterStacks(m0, k.m.tab, k.m.mem, k.m.tab, kroot, sv);
      ShrunkParts(m0, k.m.mem, k.m.tab, kroot, base, base + STACK_PAGES);
      SpacesByStacks(m0, k.m.tab, p0, k.m.mem, k.m.tab, kroot, sv);
      KernelByShrinking(m0, k.m.mem, k.m.tab, p0, kroot, base);
      HeapOutlivesShrinking(m0, k.m.mem, k.m.tab, kroot, base, base + STACK_PAGES, k.PageCount());
      SlotsFilled(m0, k.m.mem, k.m.tab, kroot);
      stacks := stacks[..j] + stacks[j + 1..];
      StacksOkLess(old(stacks), broken, j, ks.next);
      StackRemoved(m0, k.m.mem, k.m.tab, kroot, base, owned, Owned());
      assert ViewsOf(spaces) == sv && PointersOf(spaces) == sb;
      Close();
    }

    // kheap_expand(n). `pages` counts the rounds that succeeded.
    method GrowHeap(n: nat) returns (r: ExpandResult, ghost pages: nat)
      requires Valid()
      modifies k`size, k`isFree, k`order, k`top, k.nodes, k.m`mem, k.m`tab, k.m`stray, k.m`failures, k.m`pages, k.m.pmm,
        k.m.pmm.bitmap
      ensures r != PageFault ==> Valid() && k.m.stray == old(k.m.stray) && UsedKept(old(Blocks()), Blocks())
      ensures r != PageFault ==> OthersKept(k.m.kroot, old(ViewsOf(spaces)), -1, old(k.m.mem), k.m.mem)
      ensures Losses(old(k.m.stray), old(k.m.failures), k.m.stray, k.m.failures)
      ensures r != Expanded ==> k.m.pmm.freePages == 0
      ensures r != PageFault ==>
                && pages <= n && k.top == old(k.top) + pages * PAGE_SIZE && (r == Expanded ==> pages == n)
                && Blocks() == HeapSpec.Expand(old(Blocks()), old(k.top), pages, AsWritten)
      ensures old(k.m.pmm.freePages) >= 4 * n ==>
                r == Expanded && k.m.pmm.freePages + 4 * n >= old(k.m.pmm.freePages)
    {
      hide Tiles, TableWf, PagesWf, Entry, WindowMapped, View, IntrusiveList.IsRing, Up, Idx, Pmm.CountFree,
        Pmm.BitsOf, Confined, Covered, Held, Booted, SlotReady, KernelGrowth, HeapSpec.Expand, KernelHeap.Valid,
        Machine.Valid, Losses, HeapHeld, UsedKept, Valid, StacksOk, StacksHeld, Tiled;
      Open();
      ghost var m0, t0, p0, kroot, sv, sb := k.m.mem, k.m.tab, k.m.pages, k.m.kroot, ViewsOf(spaces),
          PointersOf(spaces);
      ghost var bs0, top0 := k.Blocks(), k.top;
      k.HeapTiles();
      r, pages := k.Expand(n);
      if r != PageFault {
        k.Parts();
      }
      AfterHeap(m0, t0, p0, sv);
      if r != PageFault {
        ExpandKeeps(bs0, HEAP_BASE, top0, pages);
        if intact {
          HeldThroughGrowth(bs0, k.Blocks(), holders, sb, others);
        }
        assert ViewsOf(spaces) == sv && PointersOf(spaces) == sb;
        Close();
      }
    }

    // kmalloc for a caller outside the spaces
    method Malloc(bytes: nat) returns (p: PtrResult, ghost supply: nat)
      requires Valid()
      modifies this`others, this`holders
      modifies k`size, k`isFree, k`order, k`top, k.nodes, k.m`mem, k.m`tab, k.m`stray, k.m`failures, k.m`pages, k.m.pmm,
        k.m.pmm.bitmap
      ensures p != Fault ==> Valid() && k.m.stray == old(k.m.stray) && UsedKept(old(Blocks()), Blocks())
      ensures p != Fault ==> OthersKept(k.m.kroot, old(ViewsOf(spaces)), -1, old(k.m.mem), k.m.mem)
      ensures Losses(old(k.m.stray), old(k.m.failures), k.m.stray, k.m.failures)
      ensures !p.Ptr? ==> k.m.pmm.freePages == 0
      ensures others == if p.Ptr? then old(others)[p.address := HeapRuns.Granted(bytes)] else old(others)
      ensures holders == if p.Ptr? then WithOther(old(holders), p.address, HeapRuns.Granted(bytes)) else old(holders)
      // the caller is given as many bytes as he asked for, unless rounding them up wraps around
      ensures p.Ptr? && bytes + 7 < WORD_LIMIT ==> NewlyUsed(old(Blocks()), Blocks(), p.address, bytes)
      ensures p.Ptr? && WORD_LIMIT <= bytes + 7 ==> !InUse(Blocks(), p.address, bytes)
      ensures p != Fault ==>
                var o := HeapRuns.Kmalloc(old(Blocks()), old(k.top), HeapRuns.Align8(bytes), supply, AsWritten);
                Blocks() == o.bs && k.top == o.top
                && (if o.at.Some? then o.at.value < |o.bs|
                    && p == Ptr(o.bs[o.at.value].addr + HEADER_SIZE) else p == Null)
      ensures Fits(old(Blocks()), HeapRuns.Align8(bytes)) ==>
                && p == Ptr(FittingPtr(old(Blocks()), HeapRuns.Align8(bytes))) && k.top == old(k.top)
                && Blocks() == AllocAt(old(Blocks()), HeapSpec.FirstFit(old(Blocks()), HeapRuns.Align8(bytes), 0),
                                       HeapRuns.Align8(bytes))
                && k.m.pmm.freePages == old(k.m.pmm.freePages)
      ensures k.m.pmm.freePages <= old(k.m.pmm.freePages)
    {
      hide Tiles, TableWf, PagesWf, Entry, WindowMapped, View, IntrusiveList.IsRing, Up, Idx, Pmm.CountFree,
        Pmm.BitsOf, Confined, Covered, Held, Booted, SlotReady, KernelGrowth, HeapRuns.Kmalloc, HeapRuns.Align8,
        HeapRuns.Granted, Fits, TailServes, AllocAt, KernelHeap.Valid, Machine.Valid, Losses, HeapHeld, UsedKept,
        InUse, FittingPtr, Valid, StacksOk, StacksHeld, Tiled;
      Open();
      ghost var m0, t0, p0, kroot, sv, sb := k.m.mem, k.m.tab, k.m.pages, k.m.kroot, ViewsOf(spaces),
          PointersOf(spaces);
      ghost var bs0 := k.Blocks();
      var q, most, _ := k.Kmalloc(bytes);
      p, supply := q, most;
      if p == Fault {
        return;
      }
      k.Parts();
      AfterHeap(m0, t0, p0, sv);
      if intact {
        HeldThroughGrowth(bs0, k.Blocks(), holders, sb, others);
        if p.Ptr? {
          HeapRuns.Align8Covers(bytes);
          FewerBytes(bs0, k.Blocks(), p.address, HeapRuns.Align8(bytes), HeapRuns.Granted(bytes));
          OtherAdded(bs0, k.Blocks(), holders, sb, others, p.address, HeapRuns.Granted(bytes));
        }
      }
      if p.Ptr? {
        holders := WithOther(holders, p.address, HeapRuns.Granted(bytes));
        others := others[p.address := HeapRuns.Granted(bytes)];
      }
      assert ViewsOf(spaces) == sv && PointersOf(spaces) == sb;
      Close();
    }

    // The heap has grown or not; the rest of the system has not changed.
    lemma AfterHeap(m0: Memory, t0: Tables, p0: Pages, sv: seq<SpaceView>)
      requires KernelGrowth(m0, t0, p0, k.m.mem, k.m.tab, k.m.pages, k.m.kroot, HEAP_SLOT) && IsRoot(t0, k.m.kroot)
      requires Booted(m0, k.m.kroot, ks.next, Owned()) && Held(m0, t0, k.m.kroot, sv) && TableWf(m0, t0, k.m.kroot)
      ensures Booted(k.m.mem, k.m.kroot, ks.next, Owned()) && Held(k.m.mem, k.m.tab, k.m.kroot, sv)
      ensures PagesWf(m0, t0, p0, k.m.kroot) && (forall f :: f in k.m.pages ==> f !in k.m.tab) ==>
                OthersKept(k.m.kroot, sv, -1, m0, k.m.mem)
    {
      hide KernelGrowth, Confined, Booted, Held, PagesWf, TableWf;
      var kroot := k.m.kroot;
      GrowthIsConfined(m0, t0, p0, k.m.mem, k.m.tab, k.m.pages, kroot, kroot);
      BootedAfterConfined(m0, t0, p0, k.m.mem, k.m.tab, k.m.pages, kroot, kroot, ks.next, Owned());
      HeldAfterKernel(m0, t0, p0, k.m.mem, k.m.tab, k.m.pages, kroot, sv);
      if PagesWf(m0, t0, p0, kroot) && forall f :: f in k.m.pages ==> f !in k.m.tab {
        KernelIsNoSpace(m0, t0, kroot, sv);
        OthersByConfined(m0, t0, p0, k.m.mem, k.m.tab, k.m.pages, kroot, kroot, sv, -1);
      }
    }

    // kfree(p) by the caller outside the spaces who holds p
    method Free(p: nat)
      requires Valid() && p in others
      modifies this`others, this`holders, this`intact, k`size, k`isFree, k`order, k.nodes
      ensures Valid() && others == old(others) - {p} && holders == old(holders) - {p}
      ensures Blocks() == HeapRuns.FreeListed(old(Blocks()), p)
      ensures intact == (old(intact) && TakesNone(old(Blocks()), p, holders.Keys))
      ensures old(intact) ==> (intact <==> AllInUse(Blocks(), Sizes(holders)))
    {
      hide Tiles, TableWf, PagesWf, Entry, WindowMapped, View, IntrusiveList.IsRing, Pmm.CountFree, Pmm.BitsOf,
        Covered, Held, Booted, SlotReady, HeapRuns.FreeListed, KernelHeap.Valid, Machine.Valid, HeapHeld, AllInUse,
        TakesNone, Careful, Valid, StacksOk, StacksHeld, Tiled;
      Open();
      k.HeapTiles();
      ghost var bs0, sv, sb := k.Blocks(), ViewsOf(spaces), PointersOf(spaces);
      k.FreePointer(p);
      k.Parts();
      FreeEachOne(bs0, p);
      CarefulOne(bs0, p, (holders - {p}).Keys);
      if intact {
        OtherReleased(bs0, HEAP_BASE, k.top, k.Blocks(), holders, sb, others, p);
      }
      holders := holders - {p};
      others := others - {p};
      intact := intact && TakesNone(bs0, p, holders.Keys);
      assert ViewsOf(spaces) == sv && PointersOf(spaces) == sb;
      Close();
    }

    // The first half of sys_fork's memory part: mm_alloc and mm_copy.
    method CopyOf(i: nat, ghost s: SysState) returns (r: Status, ghost mid: seq<Block>, ghost ps: seq<nat>)
      requires Valid() && i < |spaces| && s == State()
      modifies this`spaces, this`holders, this`intact
      modifies k`size, k`isFree, k`order, k`top, k.nodes, k.m`mem, k.m`tab, k.m`stray, k.m`failures, k.m`pages, k.m.pmm,
        k.m.pmm.bitmap
      ensures r != Halted ==> Valid()
      ensures intact ==> old(intact)
      ensures r != Halted ==> OthersKept(k.m.kroot, s.views, -1, s.mem, k.m.mem)
      ensures r == Done && k.m.failures == s.failures ==> ChildCopied(s, i)
      ensures Losses(s.stray, s.failures, k.m.stray, k.m.failures)
      ensures r != Halted ==> LostLast(s.failures, s.free, k.m.failures, k.m.pmm.freePages, r == Done)
      ensures r == Done ==>
                && spaces != [] && spaces == old(spaces) + [spaces[|spaces| - 1]]
                && fresh(spaces[|spaces| - 1]) && ChildAdded(s, s.views[i].vmas)
                && ps == [] && intact == old(intact) && UsedKept(s.blocks, Blocks()) && k.m.pmm.freePages <= s.free
      ensures r == Failed ==> spaces == old(spaces) && OwnFrees(s.blocks, mid, ps, Blocks(), {})
      ensures r == Failed && old(intact) ==>
                && holders == old(holders)
                && (intact <==> Careful(mid, ps, holders.Keys)) && (intact <==> AllInUse(Blocks(), Sizes(holders)))
      ensures r == Halted ==> k.m.pmm.freePages == 0
      ensures forall s :: s in spaces ==> s in old(spaces) || fresh(s)
      // room for the mm_struct and the VMAs, and frames within the bound, are enough
      ensures CopyEnough(s.blocks, s.free, s.views[i].vmas) ==>
                r == Done && ChildPlanned(s, s.views[i].vmas, 1 + CopyBound(s.views[i].vmas))
    {
      hide ChildCopied, ChildPlanned, SpacesAs, StacksAs, Valid, Losses, OwnFrees, UsedKept, InUse, AllInUse, Careful,
        Rest, KernelHeap.Valid, Fits, AllocAt, FittingPtr, Tiled, WithVmas, RoomFor, CopyBound, AllocMany, ManyPtrs,
        MemoryHeld, HeapHeld, StacksOk, View, AllocFirst, FirstPtr, FirstFit, KernelHeap.Listed, LostLast,
        CopyOutcome, ChildAdded, CopyPlanned, EmptyChild, OthersKept, ForkEffect, SpaceOk;
      StateIsOk();
      r, mid, ps := NewSpace(s);
      if r != Done {
        NoneLost(s.failures, s.free, k.m.pmm.freePages, false);
        return;
      }
      LastDropped(old(spaces), spaces[|spaces| - 1]);
      r, mid, ps := CopyInto(i, s);
    }

    // The memory part of sys_fork: mm_alloc, mm_copy, kstack_init. Without a stack the child is
    // freed again, and of the stack the pages built so far stay.
    method ForkSpace(i: nat, ghost s: SysState) returns (r: Status, ghost mid: seq<Block>, ghost ps: seq<nat>)
      requires Valid() && i < |spaces| && StackFits(ks.next) && s == State()
      modifies this`spaces, this`stacks, this`broken, this`holders, this`intact, ks
      modifies k`size, k`isFree, k`order, k`top, k.nodes, k.m`mem, k.m`tab, k.m`stray, k.m`failures, k.m`pages, k.m.pmm,
        k.m.pmm.bitmap
      ensures r != Halted ==> Valid()
      ensures intact ==> old(intact)
      ensures r != Halted ==> OthersKept(k.m.kroot, s.views, -1, s.mem, k.m.mem)
      ensures r == Done && k.m.failures == s.failures ==>
                ChildCopied(s, i) && StackReady(k.m.mem, k.m.kroot, s.next + 1)
      ensures Losses(s.stray, s.failures, k.m.stray, k.m.failures)
      ensures r != Halted ==> LostLast(s.failures, s.free, k.m.failures, k.m.pmm.freePages, r == Done)
      ensures r == Done ==>
                && ChildAdded(s, s.views[i].vmas) && stacks == s.stacks + [s.next + 1] && broken == s.broken
                && ks.next == s.next + 1 + STACK_PAGES
                && ps == [] && intact == old(intact) && UsedKept(s.blocks, Blocks())
      ensures r == Failed ==> spaces == old(spaces) && stacks == s.stacks && OwnFrees(s.blocks, mid, ps, Blocks(), {})
      ensures r == Failed ==>
                || (broken == s.broken && ks.next == s.next)
                || (broken == s.broken + [s.next + 1] && ks.next == s.next + 1 + STACK_PAGES)
      ensures r == Failed && old(intact) ==>
                && holders == old(holders)
                && (intact <==> Careful(mid, ps, holders.Keys)) && (intact <==> AllInUse(Blocks(), Sizes(holders)))
      ensures r == Halted ==> k.m.pmm.freePages == 0
      ensures forall s :: s in spaces ==> s in old(spaces) || fresh(s)
      // heap room for the child and frames within the bound are enough, and then none is lost
      ensures ForkEnough(s.blocks, s.free, s.views[i].vmas) ==>
                && r == Done && k.m.stray == old(k.m.stray)
                && ChildPlanned(s, s.views[i].vmas, ForkFrames(s.views[i].vmas))
    {
      hide StackReady, Valid, Losses, OwnFrees, UsedKept, InUse, AllInUse, Careful, Rest, KernelHeap.Valid,
        Machine.Valid, Tiled, Sizes, HeapRuns.FreeEach, Sound, HeapHeld, MemoryHeld, StacksOk, Owned,
        KernelHeap.Listed, WithVmas, RoomFor, CopyBound, ForkedHeap, ForkedPtrs, Fits, AllocFirst, LostLast, View,
        ChildAdded, CopyEnough, OthersKept, ForkEffect, SpaceOk;
      r, mid, ps := CopyOf(i, s);
      if r == Done {
        r, mid, ps := StackForChild(s, i, s.views[i].vmas);
      }
    }

    // The second half: kstack_init for the new child, which is freed again without a stack.
    method StackForChild(ghost s: SysState, ghost i: nat, ghost vmas: seq<Vma>)
      returns (r: Status, ghost mid: seq<Block>, ghost ps: seq<nat>)
      requires Valid() && StackFits(ks.next) && ChildAdded(s, vmas) && StacksAs(s) && intact == s.intact
      requires UsedKept(s.blocks, Blocks()) && Losses(s.stray, s.failures, k.m.stray, k.m.failures)
      requires LostLast(s.failures, s.free, k.m.failures, k.m.pmm.freePages, true) && k.m.pmm.freePages <= s.free
      requires spaces != [] && (ForkEnough(s.blocks, s.free, vmas) ==> ChildPlanned(s, vmas, 1 + CopyBound(vmas)))
      requires i < |s.views| && vmas == s.views[i].vmas && OthersKept(k.m.kroot, s.views, -1, s.mem, k.m.mem)
      requires k.m.failures == s.failures ==> ChildCopied(s, i)
      modifies this`spaces, this`stacks, this`broken, this`holders, this`intact, ks
      modifies k`size, k`isFree, k`order, k`top, k.nodes, k.m`mem, k.m`tab, k.m`stray, k.m`failures, k.m`pages, k.m.pmm,
        k.m.pmm.bitmap
      ensures Valid() && r != Halted && (intact ==> old(intact)) && OthersKept(k.m.kroot, s.views, -1, s.mem, k.m.mem)
      ensures r == Done && k.m.failures == s.failures ==>
                ChildCopied(s, i) && StackReady(k.m.mem, k.m.kroot, s.next + 1)
      ensures Losses(s.stray, s.failures, k.m.stray, k.m.failures)
      ensures LostLast(s.failures, s.free, k.m.failures, k.m.pmm.freePages, r == Done)
      ensures r == Done ==>
                && spaces == old(spaces) && ChildAdded(s, vmas) && stacks == s.stacks + [s.next + 1]
                && broken == s.broken && ks.next == s.next + 1 + STACK_PAGES
                && ps == [] && intact == old(intact) && UsedKept(s.blocks, Blocks())
      ensures r == Failed ==>
                && spaces == old(spaces)[..|old(spaces)| - 1] && OwnFrees(s.blocks, mid, ps, Blocks(), {})
                && stacks == s.stacks && broken == s.broken + [s.next + 1] && ks.next == s.next + 1 + STACK_PAGES
      ensures r == Failed && s.intact ==>
                && holders == s.held
                && (intact <==> Careful(mid, ps, holders.Keys)) && (intact <==> AllInUse(Blocks(), Sizes(holders)))
      ensures ForkEnough(s.blocks, s.free, vmas) ==> r == Done && ChildPlanned(s, vmas, ForkFrames(vmas))
    {
      hide StackReady, Valid, Losses, OwnFrees, UsedKept, InUse, AllInUse, Careful, Rest, KernelHeap.Valid,
        Machine.Valid, Tiled, Sizes, HeapRuns.FreeEach, Sound, HeapHeld, MemoryHeld, StacksOk, Owned,
        KernelHeap.Listed, WithVmas, RoomFor, CopyBound, ForkedHeap, ForkedPtrs, Fits, AllocFirst, LostLast, View,
        ChildAdded, CopyEnough, OthersKept, ForkEffect, SpaceOk;
      var ok := NewStackFor(s, i, vmas);
      if !ok {
        LostUndone(s.failures, s.free, k.m.failures, k.m.pmm.freePages);
        mid, ps := FreeChild(s, vmas);
        return Failed, mid, ps;
      }
      return Done, [], [];
    }

    // kstack_init for the new child
    method NewStackFor(ghost s: SysState, ghost i: nat, ghost vmas: seq<Vma>) returns (ok: bool)
      requires Valid() && StackFits(ks.next) && ChildAdded(s, vmas) && UsedKept(s.blocks, Blocks())
      requires Losses(s.stray, s.failures, k.m.stray, k.m.failures)
      requires LostLast(s.failures, s.free, k.m.failures, k.m.pmm.freePages, true) && k.m.pmm.freePages <= s.free
      requires spaces != [] && (ForkEnough(s.blocks, s.free, vmas) ==> ChildPlanned(s, vmas, 1 + CopyBound(vmas)))
      requires i < |s.views| && vmas == s.views[i].vmas && OthersKept(k.m.kroot, s.views, -1, s.mem, k.m.mem)
      requires k.m.failures == s.failures ==> ChildCopied(s, i)
      modifies this`stacks, this`broken, ks
      modifies k.m`mem, k.m`tab, k.m`stray, k.m`failures, k.m`pages, k.m.pmm, k.m.pmm.bitmap
      ensures Valid() && ks.next == old(ks.next) + 1 + STACK_PAGES && ChildAdded(s, vmas)
      ensures UsedKept(s.blocks, Blocks()) && Losses(s.stray, s.failures, k.m.stray, k.m.failures)
      ensures stacks == if ok then old(stacks) + [old(ks.next) + 1] else old(stacks)
      ensures broken == if ok then old(broken) else old(broken) + [old(ks.next) + 1]
      ensures LostLast(s.failures, s.free, k.m.failures, k.m.pmm.freePages, true)
      ensures OthersKept(k.m.kroot, s.views, -1, s.mem, k.m.mem) && (k.m.failures == s.failures ==> ChildCopied(s, i))
      ensures ok && k.m.failures == s.failures ==> StackReady(k.m.mem, k.m.kroot, old(ks.next) + 1)
      ensures ForkEnough(s.blocks, s.free, vmas) ==> ok && ChildPlanned(s, vmas, ForkFrames(vmas))
    {
      hide StackReady, Valid, Losses, OwnFrees, UsedKept, InUse, AllInUse, Careful, Rest, KernelHeap.Valid,
        Machine.Valid, Tiled, Sizes, HeapRuns.FreeEach, Sound, HeapHeld, MemoryHeld, StacksOk, Owned,
        KernelHeap.Listed, WithVmas, RoomFor, CopyBound, ForkedHeap, ForkedPtrs, Fits, AllocFirst, LostLast, View,
        ChildAdded, CopyEnough, OthersKept, ForkEffect, SpaceOk;
      Open();
      ghost var a, ma, ta, sv := StockOf(k), k.m.mem, k.m.tab, ViewsOf(spaces);
      ChildLast(s, vmas);
      ok := NewStack();
      LossesTrans(s.stray, s.failures, a.stray, a.failures, k.m.stray, k.m.failures);
      LostLastStep(s.failures, s.free, a.failures, a.free, k.m.failures, k.m.pmm.freePages, true);
      LossesNone(s.stray, s.failures, a.stray, a.failures);
      LossesNone(a.stray, a.failures, k.m.stray, k.m.failures);
      CopyStays(s, i, sv, ma, ta);
      Open();
      if ForkEnough(s.blocks, s.free, vmas) {
        StackAsPlanned(s, vmas, a, StockOf(k), spaces[|spaces| - 1].Pointers());
      }
    }

    lemma ChildLast(s: SysState, vmas: seq<Vma>)
      requires ChildAdded(s, vmas)
      ensures |ViewsOf(spaces)| == |s.views| + 1 && ViewsOf(spaces)[..|s.views|] == s.views
      ensures spaces != [] && ViewsOf(spaces)[|s.views|].root == spaces[|spaces| - 1].root
    {
      hide InUse, WithVmas, Rest;
    }

    lemma SpaceIsRoot(i: nat)
      requires i < |spaces| && MemoryHeld(k.m, ks.next, Owned(), ViewsOf(spaces))
      ensures IsRoot(k.m.tab, spaces[i].root)
    {
      hide Booted;
      HeldParts(k.m.mem, k.m.tab, k.m.kroot, ViewsOf(spaces), i);
    }

    // What was copied before kstack_init is as it was.
    lemma CopyStays(s: SysState, i: nat, sv: seq<SpaceView>, ma: Memory, ta: Tables)
      requires Valid() && i < |s.views| && |sv| == |s.views| + 1 && sv[..|s.views|] == s.views && spaces != []
      requires OthersKept(k.m.kroot, s.views, -1, s.mem, ma) && OthersKept(k.m.kroot, sv, -1, ma, k.m.mem)
      requires sv[|s.views|].root == spaces[|spaces| - 1].root
      ensures OthersKept(k.m.kroot, s.views, -1, s.mem, k.m.mem)
      ensures var dst := spaces[|spaces| - 1].root;
              ForkEffect(s.mem, s.tab, s.pages, ma, ta, k.m.kroot, s.views[i].root, dst, s.views[i].vmas) ==>
                ChildCopied(s, i)
    {
      hide Valid, OthersKept, ForkEffect, KernelHeap.Valid, MemoryHeld, StacksOk, View, SpaceKept, HeapHeld;
      Open();
      PrefixKept(k.m.kroot, s.views, sv, -1, ma, k.m.mem);
      OthersTrans(k.m.kroot, s.views, -1, s.mem, ma, k.m.mem);
      SpaceIsRoot(|spaces| - 1);
      var dst := spaces[|spaces| - 1].root;
      if ForkEffect(s.mem, s.tab, s.pages, ma, ta, k.m.kroot, s.views[i].root, dst, s.views[i].vmas) {
        ForkOn(s.mem, s.tab, s.pages, ma, ta, k.m.mem, k.m.tab, k.m.kroot, s.views[i].root, dst, s.views[i].vmas);
      }
    }

    // The child is freed again.
    method FreeChild(ghost s: SysState, ghost vmas: seq<Vma>) returns (ghost mid: seq<Block>, ghost ps: seq<nat>)
      requires Valid() && spaces != [] && UsedKept(s.blocks, Blocks()) && ChildAdded(s, vmas)
      modifies this`spaces, this`holders, this`intact
      modifies k`size, k`isFree, k`order, k.nodes, k.m`tab, k.m`pages, k.m.pmm, k.m.pmm.bitmap
      ensures Valid() && spaces == old(spaces)[..|old(spaces)| - 1] && (s.intact ==> holders == s.held)
      ensures OwnFrees(s.blocks, mid, ps, Blocks(), {}) && (intact ==> old(intact))
      ensures old(intact) ==>
                (intact <==> Careful(mid, ps, holders.Keys)) && (intact <==> AllInUse(Blocks(), Sizes(holders)))
    {
      hide Valid, OwnFrees, UsedKept, InUse, AllInUse, Careful, Rest, Tiled, Blocks, Sizes, HeapRuns.FreeEach,
        WithVmas;
      mid, ps := Blocks(), spaces[|spaces| - 1].Pointers();
      BlocksTiled();
      FreeSpaceAt(|spaces| - 1);
      OwnReleased(s.blocks, mid, ps, Blocks());
    }

    // ---- The system as one value ----

    ghost function State(): (s: SysState)
      requires Valid()
      reads this, k, k.nodes, k.m, k.m.pmm, k.m.pmm.bitmap, ks, set s | s in spaces
      ensures |s.views| == |s.ptrs|
    {
      SysState(k.Blocks(), k.top, holders, ViewsOf(spaces), PointersOf(spaces), others, stacks, broken, ks.next,
               k.m.mem, k.m.kroot, k.m.pmm.Bits(), k.m.tab, k.m.pages, k.m.stray, k.m.failures, k.m.pmm.freePages,
               intact)
    }

    lemma StateIsOk()
      requires Valid()
      ensures k.Listed() && StateOk(State()) && |State().bits| == k.m.pmm.totalPages && State().blocks == Blocks()
      ensures State().intact ==> Honest(State())
    {
      hide TableWf, PagesWf, Tiles, WindowMapped, SlotReady, View, Booted, Held, StacksOk, RegistryOk, AllInUse,
        Accounted;
      k.Parts();
      k.HeapTiles();
    }

    // ---- Each operation, as a step of the whole system ----
    // false: the kernel writes through an unmapped heap page, which needs memory to be exhausted.

    // s is an earlier state, and the parts that no operation but one on the spaces changes are as in s.
    ghost predicate Since(s: SysState)
      reads this`intact, k.m, k.m.pmm
    {
      && StateOk(s) && |s.bits| == k.m.pmm.totalPages && s.kroot == k.m.kroot && (intact ==> s.intact)
      && Losses(s.stray, s.failures, k.m.stray, k.m.failures)
    }

    ghost predicate StacksAs(s: SysState)
      reads this`stacks, this`broken, ks
    {
      stacks == s.stacks && broken == s.broken && ks.next == s.next
    }

    ghost predicate SpacesAs(s: SysState)
      reads this`spaces, set s | s in spaces
    {
      ViewsOf(spaces) == s.views && PointersOf(spaces) == s.ptrs
    }

    lemma NowKept(s: SysState)
      requires Valid() && Since(s)
      ensures Kept(s, State())
    {
      hide Valid, StateOk, Losses, Honest, KernelHeap.Valid;
      StateIsOk();
      ViewsMatch(s);
    }

    method DoNew(ghost s: SysState) returns (alive: bool, ghost st: HeapStep)
      requires Valid() && s == State()
      modifies this`spaces, this`holders, this`intact
      modifies k`size, k`isFree, k`order, k`top, k.nodes, k.m`mem, k.m`tab, k.m`stray, k.m`failures, k.m`pages, k.m.pmm,
        k.m.pmm.bitmap
      ensures alive ==> Valid() && OpStep(OpNew, s, st, State())
      ensures Enough(OpNew, LayoutOf(s), s.free) ==> alive
      ensures !alive ==> k.m.pmm.freePages == 0
      ensures forall s :: s in spaces ==> s in old(spaces) || fresh(s)
    {
      hide StackReady, OthersKept, MapEffect, ForkEffect, SpaceOk, Valid, KernelHeap.Valid, Machine.Valid, MemoryHeld,
        StacksOk, Held, Booted, HeapHeld, View, Tiles, Tiled, Losses, OwnFrees, UsedKept, InUse, AllInUse, Careful,
        Rest, WithVmas, HeapRuns.FreeEach, HeapRuns.FreeListed, AllocAt, AllocFirst, FittingPtr, FirstPtr, Fits,
        FirstFit, StateOk, NewRange, NeedBound, PageSpan, FirstPage, LostLast, RegistryOk, Pmm.CountFree, Pmm.BitsOf,
        TakesNone, OpStep, EmptyChild, MapOutcome, HeapSpec.Expand, HeapRuns.Kmalloc, HeapRuns.Align8,
        HeapRuns.Granted;
      StateIsOk();
      LossesRefl(s.stray, s.failures);
      ghost var mid, ps;
      var r;
      r, mid, ps := NewSpace(s);
      if r == Halted {
        return false, HeapStep([], [], false);
      }
      if r == Done {
        AfterNew(s);
        return true, HeapStep(Blocks(), [], false);
      }
      AfterFailedNew(s, mid, ps);
      return true, HeapStep(mid, ps, false);
    }

    lemma AfterNew(s: SysState)
      requires Valid() && Since(s) && StacksAs(s) && others == s.others && EmptyChild(s) && spaces != []
      requires UsedKept(s.blocks, Blocks())
      requires Fits(s.blocks, SIZEOF_MM) && s.free >= 1 ==>
                && k.m.pmm.freePages == s.free - 1 && k.top == s.top && Blocks() == AllocFirst(s.blocks, SIZEOF_MM)
                && spaces[|spaces| - 1].block == FirstPtr(s.blocks, SIZEOF_MM)
      ensures OpStep(OpNew, s, HeapStep(Blocks(), [], false), State())
    {
      hide StackReady, OthersKept, MapEffect, ForkEffect, SpaceOk, Valid, KernelHeap.Valid, Machine.Valid, MemoryHeld,
        StacksOk, Held, Booted, HeapHeld, View, Tiles, Tiled, Losses, OwnFrees, UsedKept, InUse, AllInUse, Careful,
        Rest, WithVmas, HeapRuns.FreeEach, HeapRuns.FreeListed, AllocAt, AllocFirst, FittingPtr, FirstPtr, Fits,
        FirstFit, StateOk, NewRange, NeedBound, PageSpan, FirstPage, LostLast, RegistryOk, Pmm.CountFree, Pmm.BitsOf,
        TakesNone, OpStep, MapOutcome, HeapSpec.Expand, HeapRuns.Kmalloc, HeapRuns.Align8, HeapRuns.Granted;
      NowKept(s);
      NewDone(s, State(), spaces[|spaces| - 1].root, spaces[|spaces| - 1].block);
    }

    lemma AfterFailedNew(s: SysState, mid: seq<Block>, ps: seq<nat>)
      requires Valid() && Since(s) && StacksAs(s) && SpacesAs(s) && others == s.others && holders == s.held
      requires k.m.stray == s.stray && OwnFrees(s.blocks, mid, ps, Blocks(), {}) && k.m.pmm.freePages == 0
      requires intact == (s.intact && Careful(mid, ps, holders.Keys))
      requires s.intact ==> (intact <==> AllInUse(Blocks(), Sizes(holders)))
      requires !(Fits(s.blocks, SIZEOF_MM) && s.free >= 1) && OthersKept(k.m.kroot, s.views, -1, s.mem, k.m.mem)
      ensures OpStep(OpNew, s, HeapStep(mid, ps, false), State())
    {
      hide StackReady, OthersKept, MapEffect, ForkEffect, SpaceOk, Valid, KernelHeap.Valid, Machine.Valid, MemoryHeld,
        StacksOk, Held, Booted, HeapHeld, View, Tiles, Tiled, Losses, OwnFrees, UsedKept, InUse, AllInUse, Careful,
        Rest, WithVmas, HeapRuns.FreeEach, HeapRuns.FreeListed, AllocAt, AllocFirst, FittingPtr, FirstPtr, Fits,
        FirstFit, StateOk, NewRange, NeedBound, PageSpan, FirstPage, LostLast, RegistryOk, Pmm.CountFree, Pmm.BitsOf,
        TakesNone, OpStep, MapOutcome, HeapSpec.Expand, HeapRuns.Kmalloc, HeapRuns.Align8, HeapRuns.Granted;
      NowKept(s);
      NewFailed(s, mid, ps, State());
    }

    method DoMap(i: nat, va: nat, size: nat, flags: nat, ghost s: SysState) returns (alive: bool, ghost st: HeapStep)
      requires Valid() && s == State()
      modifies this`holders, this`intact, set s | s in spaces
      modifies k`size, k`isFree, k`order, k`top, k.nodes, k.m`mem, k.m`tab, k.m`stray, k.m`failures, k.m`pages, k.m.pmm,
        k.m.pmm.bitmap
      ensures alive ==> Valid() && OpStep(OpMap(i, va, size, flags), s, st, State())
      ensures Enough(OpMap(i, va, size, flags), LayoutOf(s), s.free) ==> alive
      ensures !alive ==> k.m.pmm.freePages == 0
    {
      hide StackReady, OthersKept, MapEffect, ForkEffect, SpaceOk, Valid, KernelHeap.Valid, Machine.Valid, MemoryHeld,
        StacksOk, Held, Booted, HeapHeld, View, Tiles, Tiled, Losses, OwnFrees, UsedKept, InUse, AllInUse, Careful,
        Rest, WithVmas, HeapRuns.FreeEach, HeapRuns.FreeListed, AllocAt, AllocFirst, FittingPtr, FirstPtr, Fits,
        FirstFit, StateOk, NewRange, NeedBound, PageSpan, FirstPage, LostLast, RegistryOk, Pmm.CountFree, Pmm.BitsOf,
        TakesNone, OpStep, MapOutcome, HeapSpec.Expand, HeapRuns.Kmalloc, HeapRuns.Align8, HeapRuns.Granted;
      StateIsOk();
      if !(i < |spaces| && NewRange(spaces[i].vmas, va, size)) {
        IdleStep(OpMap(i, va, size, flags), s);
        return true, HeapStep(s.blocks, [], false);
      }
      ghost var before := spaces[i].blocks;
      var r;
      ghost var mid, ps;
      r, mid, ps := MapIn(i, va, size, flags);
      if r == Halted {
        return false, HeapStep([], [], false);
      }
      AfterMap(i, va, size, flags, r == Done, s, before, mid, ps);
      return true, HeapStep(mid, ps, ps != []);
    }

    lemma AfterMap(i: nat, va: nat, size: nat, flags: nat, done: bool, s: SysState, before: seq<nat>, mid: seq<Block>,
                   ps: seq<nat>)
      requires Valid() && Since(s) && StacksAs(s) && others == s.others && i < |s.views| == |s.ptrs| == |spaces|
      requires NewRange(s.views[i].vmas, va, size)
      requires s.ptrs[i] == SpaceBlocks(s.views[i].root, before + [spaces[i].block])
      requires MapOutcome(done, Stocks(s), StockOf(k), va, size, flags, s.views[i].vmas, spaces[i].vmas, before,
                          spaces[i].blocks, mid, ps)
      requires s.views[i].root == spaces[i].root && |before| <= |spaces[i].blocks|
      requires ViewsOf(spaces) == s.views[i := SpaceView(spaces[i].root, spaces[i].vmas)]
      requires PointersOf(spaces) == s.ptrs[i := SpaceBlocks(spaces[i].root, spaces[i].Pointers())]
      requires holders == WithVmas(s.held, spaces[i].root, spaces[i].blocks[|before|..])
      requires OthersKept(k.m.kroot, s.views, i, s.mem, k.m.mem)
      requires MapEffect(done, k.m.failures == s.failures, s.mem, s.tab, s.pages, k.m.mem, k.m.tab, k.m.kroot,
                         spaces[i].root, va, size, flags, s.views[i].vmas, spaces[i].vmas)
      requires intact == (s.intact && ps == [])
      requires s.intact ==> (intact <==> AllInUse(Blocks(), Sizes(holders)))
      ensures OpStep(OpMap(i, va, size, flags), s, HeapStep(mid, ps, ps != []), State())
    {
      hide StackReady, OthersKept, MapEffect, ForkEffect, SpaceOk, Valid, KernelHeap.Valid, Machine.Valid, MemoryHeld,
        StacksOk, Held, Booted, HeapHeld, View, Tiles, Tiled, Losses, OwnFrees, UsedKept, InUse, AllInUse, Careful,
        Rest, WithVmas, HeapRuns.FreeEach, HeapRuns.FreeListed, AllocAt, AllocFirst, FittingPtr, FirstPtr, Fits,
        FirstFit, StateOk, NewRange, NeedBound, PageSpan, FirstPage, LostLast, RegistryOk, Pmm.CountFree, Pmm.BitsOf,
        TakesNone, OpStep, MapOutcome, HeapSpec.Expand, HeapRuns.Kmalloc, HeapRuns.Align8, HeapRuns.Granted;
      NowKept(s);
      MapStepped(i, va, size, flags, done, s, spaces[i].vmas, before, spaces[i].blocks, spaces[i].block, mid, ps,
                 State());
    }

    method DoFork(i: nat, ghost s: SysState) returns (alive: bool, ghost st: HeapStep)
      requires Valid() && s == State()
      modifies this`spaces, this`stacks, this`broken, this`holders, this`intact, ks
      modifies k`size, k`isFree, k`order, k`top, k.nodes, k.m`mem, k.m`tab, k.m`stray, k.m`failures, k.m`pages, k.m.pmm,
        k.m.pmm.bitmap
      ensures alive ==> Valid() && OpStep(OpFork(i), s, st, State())
      ensures Enough(OpFork(i), LayoutOf(s), s.free) ==> alive
      ensures !alive ==> k.m.pmm.freePages == 0
      ensures forall s :: s in spaces ==> s in old(spaces) || fresh(s)
    {
      hide StackReady, OthersKept, MapEffect, ForkEffect, SpaceOk, Valid, KernelHeap.Valid, Machine.Valid, MemoryHeld,
        StacksOk, Held, Booted, HeapHeld, View, Tiles, Tiled, Losses, OwnFrees, UsedKept, InUse, AllInUse, Careful,
        Rest, WithVmas, HeapRuns.FreeEach, HeapRuns.FreeListed, AllocAt, AllocFirst, FittingPtr, FirstPtr, Fits,
        FirstFit, StateOk, LostLast, RegistryOk, Pmm.CountFree, Pmm.BitsOf, OpStep, ForkedHeap, ForkedPtrs, RoomFor,
        CopyBound, NewRange, ChildAdded, ChildPlanned, ForkFrames, CopyEnough;
      StateIsOk();
      ForkNeeds(i, s);
      if !(i < |spaces| && StackFits(ks.next)) {
        IdleStep(OpFork(i), s);
        return true, HeapStep(s.blocks, [], false);
      }
      var r;
      ghost var mid, ps;
      r, mid, ps := ForkSpace(i, s);
      if r == Halted {
        return false, HeapStep([], [], false);
      }
      if r == Done {
        AfterFork(i, s);
        return true, HeapStep(Blocks(), [], false);
      }
      AfterFailedFork(i, s, mid, ps);
      return true, HeapStep(mid, ps, false);
    }

    lemma AfterFork(i: nat, s: SysState)
      requires Valid() && Since(s) && i < |s.views| == |s.ptrs| && StackFits(s.next) && others == s.others
      requires ChildAdded(s, s.views[i].vmas) && stacks == s.stacks + [s.next + 1] && broken == s.broken
      requires ks.next == s.next + 1 + STACK_PAGES && intact == s.intact && UsedKept(s.blocks, Blocks())
      requires LostLast(s.failures, s.free, k.m.failures, k.m.pmm.freePages, true)
      requires OthersKept(k.m.kroot, s.views, -1, s.mem, k.m.mem)
      requires k.m.failures == s.failures ==> ChildCopied(s, i) && StackReady(k.m.mem, k.m.kroot, s.next + 1)
      requires ForkEnough(s.blocks, s.free, s.views[i].vmas) ==>
                ChildPlanned(s, s.views[i].vmas, ForkFrames(s.views[i].vmas))
      ensures OpStep(OpFork(i), s, HeapStep(Blocks(), [], false), State())
    {
      hide StackReady, OthersKept, MapEffect, ForkEffect, SpaceOk, Valid, KernelHeap.Valid, Machine.Valid, MemoryHeld,
        StacksOk, Held, Booted, HeapHeld, View, Tiles, Tiled, Losses, OwnFrees, UsedKept, InUse, AllInUse, Careful,
        Rest, WithVmas, HeapRuns.FreeEach, HeapRuns.FreeListed, AllocAt, AllocFirst, FittingPtr, FirstPtr, Fits,
        FirstFit, StateOk, LostLast, RegistryOk, Pmm.CountFree, Pmm.BitsOf, OpStep, ForkedHeap, ForkedPtrs, RoomFor,
        CopyBound, NewRange;
      NowKept(s);
      var c := spaces[|spaces| - 1];
      assert c.Pointers()[..|c.blocks|] == c.blocks && c.Pointers()[|c.blocks|] == c.block;
      assert SpaceAppeared(s, State(), s.views[i].vmas);
      ForkDone(i, s, State());
    }

    lemma AfterFailedFork(i: nat, s: SysState, mid: seq<Block>, ps: seq<nat>)
      requires Valid() && Since(s) && SpacesAs(s) && i < |s.views| == |s.ptrs| && StackFits(s.next)
      requires others == s.others && stacks == s.stacks && (s.intact ==> holders == s.held)
      requires (broken == s.broken && ks.next == s.next)
               || (broken == s.broken + [s.next + 1] && ks.next == s.next + 1 + STACK_PAGES)
      requires LostLast(s.failures, s.free, k.m.failures, k.m.pmm.freePages, false)
      requires OthersKept(k.m.kroot, s.views, -1, s.mem, k.m.mem)
      requires OwnFrees(s.blocks, mid, ps, Blocks(), {}) && !ForkEnough(s.blocks, s.free, s.views[i].vmas)
      requires s.intact ==>
                (intact <==> Careful(mid, ps, holders.Keys)) && (intact <==> AllInUse(Blocks(), Sizes(holders)))
      ensures OpStep(OpFork(i), s, HeapStep(mid, ps, false), State())
    {
      hide StackReady, OthersKept, MapEffect, ForkEffect, SpaceOk, Valid, KernelHeap.Valid, Machine.Valid, MemoryHeld,
        StacksOk, Held, Booted, HeapHeld, View, Tiles, Tiled, Losses, OwnFrees, UsedKept, InUse, AllInUse, Careful,
        Rest, WithVmas, HeapRuns.FreeEach, HeapRuns.FreeListed, AllocAt, AllocFirst, FittingPtr, FirstPtr, Fits,
        FirstFit, StateOk, LostLast, RegistryOk, Pmm.CountFree, Pmm.BitsOf, OpStep, ForkedHeap, ForkedPtrs, RoomFor,
        CopyBound, NewRange;
      NowKept(s);
      ForkFailed(i, s, mid, ps, State());
    }

    method DoFree(i: nat, ghost s: SysState) returns (alive: bool, ghost st: HeapStep)
      requires Valid() && s == State()
      modifies this`spaces, this`holders, this`intact
      modifies k`size, k`isFree, k`order, k.nodes, k.m`tab, k.m`pages, k.m.pmm, k.m.pmm.bitmap
      ensures alive ==> Valid() && OpStep(OpFree(i), s, st, State())
      ensures Enough(OpFree(i), LayoutOf(s), s.free) ==> alive
      ensures !alive ==> k.m.pmm.freePages == 0
      ensures forall s :: s in spaces ==> s in old(spaces) || fresh(s)
    {
      hide StackReady, OthersKept, MapEffect, ForkEffect, SpaceOk, Valid, KernelHeap.Valid, Machine.Valid, MemoryHeld,
        StacksOk, Held, Booted, HeapHeld, View, Tiles, Tiled, Losses, OwnFrees, UsedKept, InUse, AllInUse, Careful,
        Rest, WithVmas, HeapRuns.FreeEach, HeapRuns.FreeListed, AllocAt, AllocFirst, FittingPtr, FirstPtr, Fits,
        FirstFit, StateOk, NewRange, NeedBound, PageSpan, FirstPage, LostLast, RegistryOk, Pmm.CountFree, Pmm.BitsOf,
        TakesNone, OpStep, MapOutcome, HeapSpec.Expand, HeapRuns.Kmalloc, HeapRuns.Align8, HeapRuns.Granted;
      StateIsOk();
      LossesRefl(s.stray, s.failures);
      if i >= |spaces| {
        IdleStep(OpFree(i), s);
        return true, HeapStep(s.blocks, [], false);
      }
      FreeSpaceAt(i);
      AfterFree(i, s);
      return true, HeapStep(s.blocks, s.ptrs[i].ptrs, false);
    }

    lemma AfterFree(i: nat, s: SysState)
      requires Valid() && Since(s) && StacksAs(s) && others == s.others && i < |s.views| == |s.ptrs| && k.top == s.top
      requires k.m.stray == s.stray && k.m.failures == s.failures && k.m.pmm.freePages >= s.free && k.m.mem == s.mem
      requires ViewsOf(spaces) == s.views[..i] + s.views[i + 1..]
      requires PointersOf(spaces) == s.ptrs[..i] + s.ptrs[i + 1..]
      requires holders == Rest(s.held, s.ptrs[i].root) && Blocks() == HeapRuns.FreeEach(s.blocks, s.ptrs[i].ptrs)
      requires intact == (s.intact && Careful(s.blocks, s.ptrs[i].ptrs, holders.Keys))
      requires s.intact ==> (intact <==> AllInUse(Blocks(), Sizes(holders)))
      ensures OpStep(OpFree(i), s, HeapStep(s.blocks, s.ptrs[i].ptrs, false), State())
    {
      hide StackReady, OthersKept, MapEffect, ForkEffect, SpaceOk, Valid, KernelHeap.Valid, Machine.Valid, MemoryHeld,
        StacksOk, Held, Booted, HeapHeld, View, Tiles, Tiled, Losses, OwnFrees, UsedKept, InUse, AllInUse, Careful,
        Rest, WithVmas, HeapRuns.FreeEach, HeapRuns.FreeListed, AllocAt, AllocFirst, FittingPtr, FirstPtr, Fits,
        FirstFit, StateOk, NewRange, NeedBound, PageSpan, FirstPage, LostLast, RegistryOk, Pmm.CountFree, Pmm.BitsOf,
        TakesNone, OpStep, MapOutcome, HeapSpec.Expand, HeapRuns.Kmalloc, HeapRuns.Align8, HeapRuns.Granted;
      NowKept(s);
      FreeStepped(i, s, State());
    }

    method DoNewStack(ghost s: SysState) returns (alive: bool, ghost st: HeapStep)
      requires Valid() && s == State()
      modifies this`stacks, this`broken, ks
      modifies k.m`mem, k.m`tab, k.m`stray, k.m`failures, k.m`pages, k.m.pmm, k.m.pmm.bitmap
      ensures alive ==> Valid() && OpStep(OpNewStack, s, st, State())
      ensures Enough(OpNewStack, LayoutOf(s), s.free) ==> alive
      ensures !alive ==> k.m.pmm.freePages == 0
    {
      hide StackReady, OthersKept, MapEffect, ForkEffect, SpaceOk, Valid, KernelHeap.Valid, Machine.Valid, MemoryHeld,
        StacksOk, Held, Booted, HeapHeld, View, Tiles, Tiled, Losses, OwnFrees, UsedKept, InUse, AllInUse, Careful,
        Rest, WithVmas, HeapRuns.FreeEach, HeapRuns.FreeListed, AllocAt, AllocFirst, FittingPtr, FirstPtr, Fits,
        FirstFit, StateOk, NewRange, NeedBound, PageSpan, FirstPage, LostLast, RegistryOk, Pmm.CountFree, Pmm.BitsOf,
        TakesNone, OpStep, MapOutcome, HeapSpec.Expand, HeapRuns.Kmalloc, HeapRuns.Align8, HeapRuns.Granted;
      StateIsOk();
      if !StackFits(ks.next) {
        IdleStep(OpNewStack, s);
        return true, HeapStep(s.blocks, [], false);
      }
      var ok := NewStack();
      NowKept(s);
      StackStepped(s, State());
      return true, HeapStep(s.blocks, [], false);
    }

    method DoFreeStack(j: nat, ghost s: SysState) returns (alive: bool, ghost st: HeapStep)
      requires Valid() && s == State()
      modifies this`stacks, k.m`mem, k.m`stray, k.m`pages, k.m.pmm, k.m.pmm.bitmap
      ensures alive ==> Valid() && OpStep(OpFreeStack(j), s, st, State())
      ensures Enough(OpFreeStack(j), LayoutOf(s), s.free) ==> alive
      ensures !alive ==> k.m.pmm.freePages == 0
    {
      hide StackReady, OthersKept, MapEffect, ForkEffect, SpaceOk, Valid, KernelHeap.Valid, Machine.Valid, MemoryHeld,
        StacksOk, Held, Booted, HeapHeld, View, Tiles, Tiled, Losses, OwnFrees, UsedKept, InUse, AllInUse, Careful,
        Rest, WithVmas, HeapRuns.FreeEach, HeapRuns.FreeListed, AllocAt, AllocFirst, FittingPtr, FirstPtr, Fits,
        FirstFit, StateOk, NewRange, NeedBound, PageSpan, FirstPage, LostLast, RegistryOk, Pmm.CountFree, Pmm.BitsOf,
        TakesNone, OpStep, MapOutcome, HeapSpec.Expand, HeapRuns.Kmalloc, HeapRuns.Align8, HeapRuns.Granted;
      StateIsOk();
      LossesRefl(s.stray, s.failures);
      if j >= |stacks| {
        IdleStep(OpFreeStack(j), s);
        return true, HeapStep(s.blocks, [], false);
      }
      FreeStack(j);
      NowKept(s);
      UnstackStepped(j, s, State());
      return true, HeapStep(s.blocks, [], false);
    }

    method DoGrow(n: nat, ghost s: SysState) returns (alive: bool, ghost st: HeapStep)
      requires Valid() && s == State()
      modifies k`size, k`isFree, k`order, k`top, k.nodes, k.m`mem, k.m`tab, k.m`stray, k.m`failures, k.m`pages, k.m.pmm,
        k.m.pmm.bitmap
      ensures alive ==> Valid() && OpStep(OpGrow(n), s, st, State())
      ensures Enough(OpGrow(n), LayoutOf(s), s.free) ==> alive
      ensures !alive ==> k.m.pmm.freePages == 0
    {
      hide StackReady, OthersKept, MapEffect, ForkEffect, SpaceOk, Valid, KernelHeap.Valid, Machine.Valid, MemoryHeld,
        StacksOk, Held, Booted, HeapHeld, View, Tiles, Tiled, Losses, OwnFrees, UsedKept, InUse, AllInUse, Careful,
        Rest, WithVmas, HeapRuns.FreeEach, HeapRuns.FreeListed, AllocAt, AllocFirst, FittingPtr, FirstPtr, Fits,
        FirstFit, StateOk, NewRange, NeedBound, PageSpan, FirstPage, LostLast, RegistryOk, Pmm.CountFree, Pmm.BitsOf,
        TakesNone, OpStep, MapOutcome, HeapSpec.Expand, HeapRuns.Kmalloc, HeapRuns.Align8, HeapRuns.Granted;
      StateIsOk();
      var r;
      ghost var pages;
      r, pages := GrowHeap(n);
      if r == PageFault {
        return false, HeapStep([], [], false);
      }
      LossesNone(s.stray, s.failures, k.m.stray, k.m.failures);
      NowKept(s);
      GrowStepped(n, pages, s, State());
      return true, HeapStep(Blocks(), [], false);
    }

    method DoMalloc(bytes: nat, ghost s: SysState) returns (alive: bool, ghost st: HeapStep)
      requires Valid() && s == State()
      modifies this`others, this`holders
      modifies k`size, k`isFree, k`order, k`top, k.nodes, k.m`mem, k.m`tab, k.m`stray, k.m`failures, k.m`pages, k.m.pmm,
        k.m.pmm.bitmap
      ensures alive ==> Valid() && OpStep(OpMalloc(bytes), s, st, State())
      ensures Enough(OpMalloc(bytes), LayoutOf(s), s.free) ==> alive
      ensures !alive ==> k.m.pmm.freePages == 0
    {
      hide StackReady, OthersKept, MapEffect, ForkEffect, SpaceOk, Valid, KernelHeap.Valid, Machine.Valid, MemoryHeld,
        StacksOk, Held, Booted, HeapHeld, View, Tiles, Tiled, Losses, OwnFrees, UsedKept, InUse, AllInUse, Careful,
        Rest, WithVmas, HeapRuns.FreeEach, HeapRuns.FreeListed, AllocAt, AllocFirst, FittingPtr, FirstPtr, Fits,
        FirstFit, StateOk, NewRange, NeedBound, PageSpan, FirstPage, LostLast, RegistryOk, Pmm.CountFree, Pmm.BitsOf,
        TakesNone, OpStep, MapOutcome, HeapSpec.Expand, HeapRuns.Kmalloc, HeapRuns.Align8, HeapRuns.Granted;
      StateIsOk();
      var p;
      ghost var supply;
      p, supply := Malloc(bytes);
      if p == Fault {
        return false, HeapStep([], [], false);
      }
      if Fits(s.blocks, HeapRuns.Align8(bytes)) {
        FirstIs(s.blocks, HeapRuns.Align8(bytes));
      }
      LossesNone(s.stray, s.failures, k.m.stray, k.m.failures);
      NowKept(s);
      MallocStepped(bytes, supply, s, State());
      return true, HeapStep(Blocks(), [], false);
    }

    method DoKfree(p: nat, ghost s: SysState) returns (alive: bool, ghost st: HeapStep)
      requires Valid() && s == State()
      modifies this`others, this`holders, this`intact, k`size, k`isFree, k`order, k.nodes
      ensures alive ==> Valid() && OpStep(OpKfree(p), s, st, State())
      ensures Enough(OpKfree(p), LayoutOf(s), s.free) ==> alive
      ensures !alive ==> k.m.pmm.freePages == 0
    {
      hide StackReady, OthersKept, MapEffect, ForkEffect, SpaceOk, Valid, KernelHeap.Valid, Machine.Valid, MemoryHeld,
        StacksOk, Held, Booted, HeapHeld, View, Tiles, Tiled, Losses, OwnFrees, UsedKept, InUse, AllInUse, Careful,
        Rest, WithVmas, HeapRuns.FreeEach, HeapRuns.FreeListed, AllocAt, AllocFirst, FittingPtr, FirstPtr, Fits,
        FirstFit, StateOk, NewRange, NeedBound, PageSpan, FirstPage, LostLast, RegistryOk, Pmm.CountFree, Pmm.BitsOf,
        TakesNone, OpStep, MapOutcome, HeapSpec.Expand, HeapRuns.Kmalloc, HeapRuns.Align8, HeapRuns.Granted;
      StateIsOk();
      LossesRefl(s.stray, s.failures);
      if p !in others {
        IdleStep(OpKfree(p), s);
        return true, HeapStep(s.blocks, [], false);
      }
      Free(p);
      NowKept(s);
      KfreeStepped(p, s, State());
      return true, HeapStep(s.blocks, [p], false);
    }

    // One operation. false: the kernel writes through an unmapped heap page; that needs an operation
    // for which there was not enough heap room or not enough frames.
    method Apply(op: Op, ghost s: SysState) returns (alive: bool, ghost st: HeapStep)
      requires Valid() && s == State()
      modifies this`spaces, this`stacks, this`broken, this`others, this`holders, this`intact, ks, set s | s in spaces
      modifies k`size, k`isFree, k`order, k`top, k.nodes, k.m`mem, k.m`tab, k.m`stray, k.m`failures, k.m`pages, k.m.pmm,
        k.m.pmm.bitmap
      ensures alive ==> Valid() && OpStep(op, s, st, State())
      ensures Enough(op, LayoutOf(s), s.free) ==> alive
      ensures !alive ==> k.m.pmm.freePages == 0
      ensures forall s :: s in spaces ==> s in old(spaces) || fresh(s)
    {
      hide Valid, State, OpStep, Enough;
      match op {
        case OpNew => alive, st := DoNew(s);
        case OpMap(i, va, size, flags) => alive, st := DoMap(i, va, size, flags, s);
        case OpFork(i) => alive, st := DoFork(i, s);
        case OpFree(i) => alive, st := DoFree(i, s);
        case OpNewStack => alive, st := DoNewStack(s);
        case OpFreeStack(j) => alive, st := DoFreeStack(j, s);
        case OpGrow(n) => alive, st := DoGrow(n, s);
        case OpMalloc(bytes) => alive, st := DoMalloc(bytes, s);
        case OpKfree(p) => alive, st := DoKfree(p, s);
      }
    }

    // Any run of operations, in any order. `states` are the system before the first operation and
    // after each that returned; the run ends early only at an operation for which there was not
    // enough, with memory exhausted. After the first operation that is not careful a holder has lost
    // his block, and the code no longer does what the states say.
    method Run(ops: seq<Op>) returns (alive: bool, ghost states: seq<SysState>, ghost steps: seq<HeapStep>)
      requires Valid() && intact
      modifies this`spaces, this`stacks, this`broken, this`others, this`holders, this`intact, ks, set s | s in spaces
      modifies k`size, k`isFree, k`order, k`top, k.nodes, k.m`mem, k.m`tab, k.m`stray, k.m`failures, k.m`pages, k.m.pmm,
        k.m.pmm.bitmap
      ensures Chain(ops, states, steps) && states[0] == old(State())
      ensures alive ==> |steps| == |ops| && Valid() && states[|ops|] == State()
      ensures !alive ==> k.m.pmm.freePages == 0 && RanOut(ops, states, |steps|)
      ensures AllHonest(states) <==> AllCareful(states, steps)
      ensures alive ==> (intact <==> AllCareful(states, steps)) && (intact ==> Sound())
    {
      hide Valid, State, OpStep, Chain, StateOk, AllCareful, AllHonest, RanOut, Sound;
      states, steps := [State()], [];
      StateIsOk();
      NowSound();
      ChainStart(ops, State());
      for i := 0 to |ops|
        invariant Valid() && Chain(ops, states, steps) && |steps| == i && |states| == i + 1
        invariant states[0] == old(State()) && states[0].intact && states[i] == State()
        invariant forall s :: s in spaces ==> s in old(spaces) || fresh(s)
      {
        ghost var st;
        StateIsOk();
        alive, st := Apply(ops[i], states[i]);
        if !alive {
          HonestIffCareful(ops, states, steps);
          OutOf(ops, states, i);
          return;
        }
        StateIsOk();
        ChainNext(ops, states, steps, st, State());
        states, steps := states + [State()], steps + [st];
      }
      HonestIffCareful(ops, states, steps);
      NowSound();
      alive := true;
    }

    lemma NowSound()
      requires Valid()
      ensures k.Listed() && (intact ==> Sound()) && State().intact == intact
    {
      hide Booted, StacksOk, Held, KernelHeap.Valid, RegistryOk, AllInUse;
      k.Parts();
    }

    // While the heap is intact, the mm_structs and VMAs of all live spaces and the blocks of all other
    // callers are apart from each other, headers included, and so are their places in the heap.
    lemma BlocksApart(p: nat, q: nat)
      requires Valid() && intact && p in holders && q in holders && p != q
      ensures p + holders[p].size + HEADER_SIZE <= q || q + holders[q].size + HEADER_SIZE <= p
    {
      hide TableWf, PagesWf, Held, Tiles, WindowMapped, UnmappedFrom, StacksHeld, View, RegistryOk, AllInUse;
      k.HeapTiles();
      HeldApart(k.Blocks(), HEAP_BASE, k.top, holders, PointersOf(spaces), others, p, q);
    }

    // When mm_free releases the blocks of space i, each kfree meets a block that is still in use, or one
    // that an earlier kfree of the same mm_free has taken; nothing was handed out in between.
    lemma FreesAreMeant(i: nat, n: nat)
      requires Valid() && intact && i < |spaces| && n < |spaces[i].Pointers()|
      ensures var ps := spaces[i].Pointers();
              InUse(HeapRuns.FreeEach(Blocks(), ps[..n]), ps[n], 0) || TakenBefore(Blocks(), ps, n, ps[n])
    {
      hide KernelHeap.Valid, MemoryHeld, StacksOk, Tiles, View, InUse, FreeTakes, HeapRuns.FreeEach, NothingElse,
        OthersRegistered;
      Open();
      k.HeapTiles();
      var sb, ps := PointersOf(spaces), spaces[i].Pointers();
      assert Registered(holders, sb[i]);
      PtrsIn(holders, sb[i]);
      forall q | q in ps ensures InUse(k.Blocks(), q, 0) {
        Lesser(k.Blocks(), q, Sizes(holders)[q]);
      }
      EachFreeIsMeant(k.Blocks(), HEAP_BASE, k.top, ps, n, n);
    }

    // No two live spaces share an mm_struct or a VMA, and no space has two in one place.
    lemma SpacesApart(i: nat, j: nat, n: nat, l: nat)
      requires Valid() && intact && i < |spaces| && n < |spaces| && (i != n || j != l)
      requires j < |spaces[i].Pointers()| && l < |spaces[n].Pointers()|
      ensures spaces[i].Pointers()[j] in holders && spaces[n].Pointers()[l] in holders
      ensures spaces[i].Pointers()[j] != spaces[n].Pointers()[l]
    {
      hide TableWf, PagesWf, Held, Tiles, WindowMapped, UnmappedFrom, StacksHeld, View, RegistryOk, AllInUse;
      PointersDiffer(holders, PointersOf(spaces), others, i, j, n, l);
    }

    // Two owned translations never lead to the same frame, nor one to a table: user pages of any
    // two spaces, heap pages and stack pages.
    lemma OwnedPagesDiffer(r: nat, v: nat, s: nat, u: nat)
      requires Valid() && IsRoot(k.m.tab, r) && IsRoot(k.m.tab, s) && v < VPN_LIMIT && u < VPN_LIMIT
      requires OwnsPage(k.m.kroot, r, v) && OwnsPage(k.m.kroot, s, u)
      requires Present(Entry(k.m.mem, r, v)) && Present(Entry(k.m.mem, s, u))
      ensures FrameOf(Entry(k.m.mem, r, v)) == FrameOf(Entry(k.m.mem, s, u)) <==> r == s && v == u
      ensures FrameOf(Entry(k.m.mem, r, v)) !in k.m.tab && FrameOf(Entry(k.m.mem, r, v)) !in k.m.stray
    {
      hide TableWf, Entry, FrameOf, Held, Tiles, WindowMapped, UnmappedFrom;
      ListedPage(k.m.mem, k.m.tab, k.m.pages, k.m.kroot, r, v);
      ListedPage(k.m.mem, k.m.tab, k.m.pages, k.m.kroot, s, u);
    }

    // Kernel-half agreement in every state of every run: a heap or stack page reads through each
    // live space as it does through the kernel's PML4, whenever it was mapped.
    lemma KernelHalfShared(i: nat, v: nat)
      requires Valid() && i < |spaces| && USER_LIMIT <= v < VPN_LIMIT
      ensures Entry(k.m.mem, spaces[i].root, v) == Entry(k.m.mem, k.m.kroot, v)
    {
      hide TableWf, Entry, Tiles, WindowMapped, UnmappedFrom;
      HeldParts(k.m.mem, k.m.tab, k.m.kroot, ViewsOf(spaces), i);
      KernelHalfAgrees(k.m.mem, k.m.tab, k.m.kroot, spaces[i].root, v);
    }
  }

  // pmm_init has run; paging_init's PML4, kheap_init(4).
  method BootHeap(frames: Pmm.FrameAllocator, ram: Memory) returns (heap: KernelHeap?)
    requires frames.Valid() && frames.Tight() && 0 < |ram| == frames.totalPages <= SLOT_PAGES && frames.Bits()[0]
    modifies frames, frames.bitmap
    ensures heap != null ==>
              && fresh(heap) && fresh(heap.m) && fresh(heap.nodes) && heap.m.pmm == frames && heap.Valid()
              && UnmappedFrom(heap.m.mem, heap.m.kroot, 0)
                 && SlotReady(heap.m.mem, heap.m.tab, heap.m.kroot, STACK_SLOT)
              && (forall g :: IsRoot(heap.m.tab, g) ==> g == heap.m.kroot)
              && (heap.PageCount() > 0 || frames.freePages == 0)
              && Losses(BusySet(old(frames.Bits())), 0, heap.m.stray, heap.m.failures)
    ensures old(frames.freePages) >= 17 ==>
              && heap != null && frames.freePages + 17 >= old(frames.freePages)
              && heap.Blocks() == [Block(HEAP_BASE, 4 * PAGE_SIZE - HEADER_SIZE, true)]
              && heap.top == HEAP_BASE + 4 * PAGE_SIZE && heap.m.failures == 0
  {
    hide Tiles, TableWf, PagesWf, Entry, WindowMapped, View, IntrusiveList.IsRing, Up, Idx, Pmm.CountFree, Pmm.BitsOf,
      SlotReady, KernelGrowth, UnmappedFrom, HeapSpec.Expand, Pmm.NextFit, Pmm.BusyBelow, Losses, BusySet;
    ghost var bits := frames.Bits();
    Pmm.CountZero(bits);
    var pml4 := frames.AllocPage();
    if pml4 == 0 {
      return null;
    }
    BusyBefore(bits, frames.Bits(), pml4);
    var m := new Machine(frames, ram, pml4);
    LossesRefl(m.stray, m.failures);
    ghost var m0, t0, p0, kroot := m.mem, m.tab, m.pages, m.kroot;
    NothingMapped(m0, t0, kroot);
    heap := new KernelHeap(m);
    var e, pages := heap.Expand(4);
    if e == PageFault {
      return null;
    }
    LossesNone(m.stray, 0, m.stray, m.failures);
    OnlyHeapMapped(m0, t0, p0, m.mem, m.tab, m.pages, kroot);
    FirstBlocks(pages);
  }

  // The frames busy before the kernel's PML4 was taken.
  lemma BusyBefore(bits0: seq<bool>, bits1: seq<bool>, f: nat)
    requires f < |bits0| && !bits0[f] && bits1 == bits0[f := true]
    ensures BusySet(bits1) - {f} == BusySet(bits0)
  {
  }

  // The heap after kheap_init(n).
  lemma FirstBlocks(n: nat)
    ensures n > 0 ==>
              HeapSpec.Expand([], HEAP_BASE, n, AsWritten) == [Block(HEAP_BASE, n * PAGE_SIZE - HEADER_SIZE, true)]
  {
    if n > 0 {
      ExpandForm([], HEAP_BASE, HEAP_BASE, n, AsWritten);
    }
  }

  // Then kstack_init(4 * PAGE_SIZE). The new stack is used at once, so its top page must be mapped.
  method BootStack(heap: KernelHeap) returns (ks: KernelStacks?)
    requires heap.Valid() && (heap.PageCount() > 0 || heap.m.pmm.freePages == 0)
    requires UnmappedFrom(heap.m.mem, heap.m.kroot, 0) && SlotReady(heap.m.mem, heap.m.tab, heap.m.kroot, STACK_SLOT)
    requires forall g :: IsRoot(heap.m.tab, g) ==> g == heap.m.kroot
    modifies heap.m`mem, heap.m`tab, heap.m`stray, heap.m`failures, heap.m`pages, heap.m.pmm, heap.m.pmm.bitmap
    ensures Losses(old(heap.m.stray), old(heap.m.failures), heap.m.stray, heap.m.failures)
    ensures ks != null ==>
              && fresh(ks) && ks.m == heap.m && ks.next == 1 + STACK_PAGES && heap.Valid() && ks.Valid()
              && Booted(heap.m.mem, heap.m.kroot, ks.next, [1] + [])
              && forall g :: IsRoot(heap.m.tab, g) ==> g == heap.m.kroot
    ensures ks != null && heap.m.failures == old(heap.m.failures) ==> StackReady(heap.m.mem, heap.m.kroot, 1)
    ensures old(heap.m.pmm.freePages) >= 16 ==>
              && ks != null && heap.m.pmm.freePages + 16 >= old(heap.m.pmm.freePages)
              && heap.m.stray == old(heap.m.stray)
  {
    hide Tiles, TableWf, PagesWf, Entry, WindowMapped, View, IntrusiveList.IsRing, Up, Idx, Pmm.CountFree, Pmm.BitsOf,
      SlotReady, KernelGrowth, UnmappedFrom, TableAt, FrameOf, StackRun, Pmm.NextFit, Pmm.BusyBelow, Losses,
      StacksHeld, BelowKept, StackReady;
    var m := heap.m;
    ghost var m1, t1, p1, kroot := m.mem, m.tab, m.pages, m.kroot;
    ghost var s1, n1 := m.stray, m.failures;
    m.KernelIsRoot();
    ks := new KernelStacks(m);
    var top, built := ks.KstackInit(STACK_PAGES);
    if top.None? {
      return null;
    }
    StacksMapped(m1, t1, p1, m.mem, m.tab, m.pages, kroot, heap.PageCount());
    m.KernelIsRoot();
    var last := top.value + STACK_PAGES - 1;
    StackVpnIs(last);
    var v := StackVpn(last);
    var pt := m.GetPte(m.kroot, v);
    LastStackPage(m.mem, p1, m.pages, kroot, top.value, last);
    if pt == 0 || !Present(m.mem[pt][Idx(v, 3)]) {
      return null;
    }
    TopFillsSlot(m.mem, kroot, v);
    NoStacks(m1, kroot);
    LossesNone(s1, n1, m.stray, m.failures);
    RunIsReady(m.mem, p1, m.pages, kroot, 1);
    StackAdded(m1, m.mem, kroot, 0, built, [], [1] + []);
  }

  lemma NoStacks(mem: Memory, kroot: nat)
    requires UnmappedFrom(mem, kroot, 0)
    ensures StacksHeld(mem, kroot, [])
  {
  }

  // null: the kernel halts.
  method Boot(frames: Pmm.FrameAllocator, ram: Memory) returns (sys: MemorySystem?)
    requires frames.Valid() && frames.Tight() && 0 < |ram| == frames.totalPages <= SLOT_PAGES && frames.Bits()[0]
    modifies frames, frames.bitmap
    ensures sys != null ==>
              && sys.Valid() && sys.k.m.pmm == frames && sys.intact && sys.holders == map[] && sys.others == map[]
              && sys.spaces == [] && sys.stacks == [1] && sys.broken == [] && sys.ks.next == 1 + STACK_PAGES
    ensures sys != null ==> fresh(sys) && fresh(sys.k) && fresh(sys.k.m) && fresh(sys.k.nodes) && fresh(sys.ks)
    // what is reserved at boot is what pmm_init left busy
    ensures sys != null ==> Losses(BusySet(old(frames.Bits())), 0, sys.k.m.stray, sys.k.m.failures)
    ensures sys != null && sys.k.m.failures == 0 ==> StackReady(sys.k.m.mem, sys.k.m.kroot, 1)
    ensures old(frames.freePages) >= 33 ==>
              && sys != null && frames.freePages + 33 >= old(frames.freePages)
              && sys.k.Blocks() == [Block(HEAP_BASE, 4 * PAGE_SIZE - HEADER_SIZE, true)]
              && sys.k.top == HEAP_BASE + 4 * PAGE_SIZE && sys.k.m.failures == 0
  {
    ghost var bits0 := frames.Bits();
    hide Tiles, TableWf, PagesWf, Entry, WindowMapped, View, IntrusiveList.IsRing, Up, Idx, Pmm.CountFree, Pmm.BitsOf,
      SlotReady, UnmappedFrom, TableAt, Pmm.NextFit, Pmm.BusyBelow, Booted, Pmm.FrameAllocator.Valid, Losses, BusySet,
      HeapHeld, Held, StacksHeld, StackReady;
    var heap := BootHeap(frames, ram);
    if heap == null {
      return null;
    }
    ghost var s1, n1 := heap.m.stray, heap.m.failures;
    var ks := BootStack(heap);
    LossesTrans(BusySet(bits0), 0, s1, n1, heap.m.stray, heap.m.failures);
    LossesNone(s1, n1, heap.m.stray, heap.m.failures);
    LossesGrow(s1, n1, heap.m.stray, heap.m.failures);
    if ks == null {
      return null;
    }
    sys := new MemorySystem(heap, ks);
  }

  // The first state, when `free` frames were free before boot; 33 of them are enough.
  ghost predicate AfterBoot(bits0: seq<bool>, free: nat, s: SysState) {
    && s.views == [] && s.ptrs == [] && s.held == map[] && s.others == map[] && s.intact
    && s.stacks == [1] && s.broken == [] && s.next == 1 + STACK_PAGES
    && |s.bits| == |bits0| && Losses(BusySet(bits0), 0, s.stray, s.failures)
    && (s.failures == 0 ==> StackReady(s.mem, s.kroot, 1))
    && (free >= 33 ==> LayoutOf(s) == BootLayout() && s.failures == 0 && s.free + 33 >= free)
  }

  // From boot, every run: the theorem of this module. `states` are the system at boot and after each
  // operation that returned; there are none when the boot sequence halts.
  method BootAndRun(frames: Pmm.FrameAllocator, ram: Memory, ops: seq<Op>)
    returns (sys: MemorySystem?, ghost states: seq<SysState>, ghost steps: seq<HeapStep>)
    requires frames.Valid() && frames.Tight() && 0 < |ram| == frames.totalPages <= SLOT_PAGES && frames.Bits()[0]
    modifies frames, frames.bitmap
    ensures states != [] ==>
              AfterBoot(old(frames.Bits()), old(frames.freePages), states[0]) && Chain(ops, states, steps)
    ensures old(frames.freePages) >= 33 ==> states != []
    ensures forall n :: 0 <= n < |states| ==> FramesOwned(old(frames.Bits()), states[n])
    // without a lost frame, all stacks have their pages, and all spaces exactly those of their areas
    ensures forall n :: 0 <= n < |states| && states[n].failures == 0 ==>
              StacksReady(states[n]) && (states[n].intact ==> AllExact(states[n]))
    // the run goes through all operations, or memory is exhausted at one that needed more
    ensures sys != null ==>
              |ops| == |steps| < |states| && sys.Valid() && sys.k.m.pmm == frames && states[|ops|] == sys.State()
    ensures sys == null ==> frames.freePages == 0 || old(frames.freePages) < 33
    ensures sys == null && states != [] ==> RanOut(ops, states, |steps|)
    // every holder keeps his own block all the way if and only if every operation is careful
    ensures states != [] ==> (AllHonest(states) <==> AllCareful(states, steps))
    ensures sys != null && AllCareful(states, steps) ==> sys.k.Listed() && sys.Sound()
    // with room and frames for the whole run, all this is decided by the operations alone
    ensures DecidedBefore(ops, states, sys != null, old(frames.freePages))
    ensures SafeWithoutKfree(ops, states, sys != null, old(frames.freePages))
  {
    ghost var bits0 := frames.Bits();
    hide Tiles, TableWf, PagesWf, Entry, WindowMapped, View, IntrusiveList.IsRing, Pmm.CountFree, Pmm.BitsOf,
      SlotReady, UnmappedFrom, Booted, Held, Pmm.FrameAllocator.Valid, MemorySystem.Valid, Losses, BusySet,
      AllCareful, AllHonest, KernelHeap.Valid, KernelHeap.Listed, MemorySystem.Sound, Chain, OpStep, StateOk,
      MemorySystem.State, PlanFits, PlanCareful, PlanAfter, FramesBefore, RoomBefore, NoReleases, RanOut, LayoutOf,
      AfterBoot, PlanEnough, BootLayout, DecidedBefore, SafeWithoutKfree, FramesOwned, AllExact, StacksReady;
    states, steps := [], [];
    sys := Boot(frames, ram);
    if sys == null {
      NoRun(ops, old(frames.freePages));
      return;
    }
    FirstState(sys, bits0, old(frames.freePages));
    var alive;
    alive, states, steps := sys.Run(ops);
    RunEnds(ops, states, steps, alive, old(frames.freePages));
    AllOwned(ops, states, steps, bits0, old(frames.freePages));
    FirstAlone(bits0, old(frames.freePages), states[0]);
    ExactFromBoot(ops, states, steps);
    ReadyFromBoot(ops, states, steps);
    if !alive {
      return null, states, steps;
    }
    sys.NowSound();
  }

  lemma AllOwned(ops: seq<Op>, states: seq<SysState>, steps: seq<HeapStep>, bits0: seq<bool>, free: nat)
    requires Chain(ops, states, steps) && AfterBoot(bits0, free, states[0])
    ensures forall n :: 0 <= n < |states| ==> FramesOwned(bits0, states[n])
  {
    hide Chain, FramesOwned, Losses, BusySet, LayoutOf;
    ChainLength(ops, states, steps);
    forall n | 0 <= n < |states| ensures FramesOwned(bits0, states[n]) {
      EachFrameOnce(ops, states, steps, bits0, n);
    }
  }

  lemma FirstAlone(bits0: seq<bool>, free: nat, s: SysState)
    requires AfterBoot(bits0, free, s)
    ensures s.views == [] && s.intact && (s.failures == 0 ==> StacksReady(s))
  {
  }

  // What boot leaves, as the first state of the run.
  lemma FirstState(sys: MemorySystem, bits0: seq<bool>, free: nat)
    requires sys.Valid() && sys.intact && sys.holders == map[] && sys.others == map[]
    requires sys.spaces == [] && sys.stacks == [1] && sys.broken == [] && sys.ks.next == 1 + STACK_PAGES
    requires |bits0| == sys.k.m.pmm.totalPages && Losses(BusySet(bits0), 0, sys.k.m.stray, sys.k.m.failures)
    requires sys.k.m.failures == 0 ==> StackReady(sys.k.m.mem, sys.k.m.kroot, 1)
    requires sys.k.Listed() && (free >= 33 ==>
                                  && sys.k.Blocks() == BootLayout().blocks && sys.k.top == BootLayout().top
                                  && sys.k.m.failures == 0 && sys.k.m.pmm.freePages + 33 >= free)
    ensures AfterBoot(bits0, free, sys.State())
  {
    hide MemorySystem.Valid, Losses, BusySet, StateOk, StackReady;
    sys.StateIsOk();
    if free >= 33 {
      LayoutsEqual(sys.State(), BootLayout());
    }
  }

  lemma {:induction false} LastStackPage(mem: Memory, p0: Pages, pages: Pages, kroot: nat, lo: nat, j: nat)
    requires lo <= j < lo + STACK_PAGES
    ensures StackRun(mem, p0, pages, kroot, lo, lo + STACK_PAGES) ==> Present(Entry(mem, kroot, StackVpn(j)))
  {
    hide Entry;
    assert StackRun(mem, p0, pages, kroot, lo, lo + STACK_PAGES) ==> StackMapped(mem, p0, pages, kroot, j);
  }

  lemma {:induction false} NothingMapped(m0: Memory, tab: Tables, kroot: nat)
    requires tab == map[kroot := TableInfo(kroot, 0, 0, kroot)] && forall v: nat :: v < VPN_LIMIT ==>
              Entry(m0, kroot, v) == 0
    ensures WindowMapped(m0, kroot, 0) && UnmappedFrom(m0, kroot, 0)
    ensures SlotReady(m0, tab, kroot, HEAP_SLOT) && IsRoot(tab, kroot)
  {
    hide Entry;
    forall j: nat | j < SLOT_PAGES ensures WindowPage(m0, kroot, 0, j) {
      HeapVpnIs(j);
    }
    forall j | 0 <= j < SLOT_PAGES ensures !Present(Entry(m0, kroot, StackVpn(j))) {
      StackVpnIs(j);
    }
  }

  // The first heap pages: the stack window is still empty, and the kernel's is still the only PML4.
  lemma {:induction false} OnlyHeapMapped(m0: Memory, t0: Tables, p0: Pages, m1: Memory, t1: Tables, p1: Pages,
                                          kroot: nat)
    requires KernelGrowth(m0, t0, p0, m1, t1, p1, kroot, HEAP_SLOT) && t0 == map[kroot := TableInfo(kroot, 0, 0, kroot)]
    requires UnmappedFrom(m0, kroot, 0)
    ensures UnmappedFrom(m1, kroot, 0) && SlotReady(m1, t1, kroot, STACK_SLOT)
    ensures forall g :: IsRoot(t1, g) ==> g == kroot
  {
    hide Entry, WalksKept;
    forall g | IsRoot(t1, g) ensures g == kroot {
      assert g in t0;
    }
    forall j | 0 <= j < SLOT_PAGES ensures !Present(Entry(m1, kroot, StackVpn(j))) {
      StackVpnIs(j);
      assert EntryKept(m0, m1, HEAP_SLOT, kroot, StackVpn(j));
    }
  }

  lemma {:induction false} StacksMapped(m0: Memory, t0: Tables, p0: Pages, m1: Memory, t1: Tables, p1: Pages,
                                        kroot: nat, n: nat)
    requires KernelGrowth(m0, t0, p0, m1, t1, p1, kroot, STACK_SLOT) && IsRoot(t0, kroot)
    requires forall g :: IsRoot(t0, g) ==> g == kroot
    requires WindowMapped(m0, kroot, n) && n > 0
    ensures WindowMapped(m1, kroot, n) && Present(Read(m1, kroot, HEAP_SLOT)) && SlotReady(m1, t1, kroot, HEAP_SLOT)
    ensures forall g :: IsRoot(t1, g) ==> g == kroot
  {
    HeapOutlivesGrowth(m0, t0, p0, m1, t1, p1, kroot, n);
    FirstPageFillsSlot(m1, kroot, n);
    hide Entry, WalksKept, WindowMapped;
    forall g | IsRoot(t1, g) ensures g == kroot {
      assert IsRoot(t0, g);
    }
  }

  lemma TopFillsSlot(mem: Memory, kroot: nat, v: nat)
    requires TableAt(mem, kroot, v, 3) != None && Idx(v, 0) == STACK_SLOT
    ensures Present(Read(mem, kroot, STACK_SLOT))
  {
    SlotFilled(mem, kroot, v, 3);
  }

  lemma {:induction false} EmptyIsOk(mem: Memory, tab: Tables, kroot: nat, root: nat)
    requires Covered(mem, tab, kroot, root, [])
    ensures SpaceOk(mem, tab, kroot, root, [])
  {
    hide Entry;
    forall v: nat | v < USER_LIMIT ensures MappedIffListed(mem, root, [], v) {
      assert CoveredAt(mem, root, [], v);
    }
  }

  lemma {:induction false} SlotsFilled(m0: Memory, m1: Memory, tab: Tables, kroot: nat)
    requires SlotsKept(m0, m1, kroot) && Present(Read(m0, kroot, HEAP_SLOT)) && Present(Read(m0, kroot, STACK_SLOT))
    ensures Present(Read(m1, kroot, HEAP_SLOT)) && Present(Read(m1, kroot, STACK_SLOT))
    ensures SlotReady(m1, tab, kroot, HEAP_SLOT)
  {
  }
}
