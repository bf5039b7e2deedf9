/** What an operation on one address space may change: its own part and the kernel heap's. */
module Confine {
  import opened Common
  import opened Pte
  import opened PageTable
  import opened Machine
  import opened MapPages
  import opened Teardown

  // A table or page that appears belongs to the space r or to the kernel heap; what was there
  // stays. The only PML4 that may appear is that of r itself.
  ghost predicate OwnersConfined(t0: Tables, p0: Pages, t1: Tables, p1: Pages, kroot: nat, r: nat) {
    && (forall g :: g in t0 ==> g in t1 && t1[g] == t0[g])
    && (forall g :: g in t1 && g !in t0 ==> (t1[g].root == r || t1[g].root == kroot) && (t1[g].depth > 0 || g == r))
    && (forall f :: f in p0 ==> f in p1 && p1[f] == p0[f])
    && (forall f :: f in p1 && f !in p0 ==> p1[f].root == r || HeapPage(p1[f], kroot))
  }

  predicate HeapPage(p: PageInfo, kroot: nat) { p.root == kroot && Idx(p.vpn, 0) == HEAP_SLOT }

  // Only tables of r and of the kernel and new pages are written: pages that were there and the
  // tables of other spaces are not.
  ghost predicate MemConfined(m0: Memory, t0: Tables, p0: Pages, m1: Memory, t1: Tables, p1: Pages, kroot: nat, r: nat)
  {
    && |m1| == |m0|
    && (forall g :: 0 <= g < |m0| && g !in t1 && (g in p0 || g !in p1) ==> m1[g] == m0[g])
    && (forall g :: 0 <= g < |m0| && g in t0 && t0[g].root != r && t0[g].root != kroot ==> m1[g] == m0[g])
  }

  // A translation changes only in the user half of r or where a heap page is mapped.
  predicate EntryConfined(m0: Memory, m1: Memory, r: nat, s: nat, v: nat) {
    (s == r && v < USER_LIMIT) || EntryKept(m0, m1, HEAP_SLOT, s, v)
  }

  // The entries above a page allow what they allowed: for all user pages of the other spaces, and for
  // the kernel pages that are mapped.
  predicate UpperConfined(m0: Memory, m1: Memory, kroot: nat, r: nat, s: nat, v: nat) {
    (if v < USER_LIMIT then s != r && s != kroot else Present(Entry(m0, s, v))) ==>
      UpperRights(m1, s, v) == UpperRights(m0, s, v)
  }

  ghost predicate RightsConfined(m0: Memory, t0: Tables, m1: Memory, kroot: nat, r: nat) {
    forall s, v: nat {:trigger UpperConfined(m0, m1, kroot, r, s, v)} ::
      IsRoot(t0, s) && v < VPN_LIMIT ==> UpperConfined(m0, m1, kroot, r, s, v)
  }

  // A filled slot of the kernel's PML4 stays filled.
  ghost predicate SlotsKept(m0: Memory, m1: Memory, kroot: nat) {
    forall i: nat {:trigger Read(m1, kroot, i)} :: Present(Read(m0, kroot, i)) ==> Present(Read(m1, kroot, i))
  }

  ghost predicate Confined(m0: Memory, t0: Tables, p0: Pages, m1: Memory, t1: Tables, p1: Pages, kroot: nat, r: nat) {
    && OwnersConfined(t0, p0, t1, p1, kroot, r) && MemConfined(m0, t0, p0, m1, t1, p1, kroot, r)
       && SlotsKept(m0, m1, kroot) && RightsConfined(m0, t0, m1, kroot, r)
    && forall s, v: nat {:trigger EntryConfined(m0, m1, r, s, v)} ::
         IsRoot(t0, s) && v < VPN_LIMIT ==> EntryConfined(m0, m1, r, s, v)
  }

  lemma {:induction false} ConfinedRefl(m: Memory, t: Tables, p: Pages, kroot: nat, r: nat)
    ensures Confined(m, t, p, m, t, p, kroot, r)
  {
    hide UpperRights;
  }

  lemma {:induction false} ConfinedTrans(m0: Memory, t0: Tables, p0: Pages, m1: Memory, t1: Tables, p1: Pages,
                                         m2: Memory, t2: Tables, p2: Pages, kroot: nat, r: nat)
    requires Confined(m0, t0, p0, m1, t1, p1, kroot, r) && Confined(m1, t1, p1, m2, t2, p2, kroot, r)
    ensures Confined(m0, t0, p0, m2, t2, p2, kroot, r)
  {
    SlotsTrans(m0, m1, m2, kroot);
    OwnersTrans(t0, p0, t1, p1, t2, p2, kroot, r);
    MemTrans(m0, t0, p0, m1, t1, p1, m2, t2, p2, kroot, r);
    hide OwnersConfined, MemConfined, SlotsKept, EntryConfined, UpperConfined;
    forall s, v: nat | IsRoot(t0, s) && v < VPN_LIMIT
      ensures EntryConfined(m0, m2, r, s, v) && UpperConfined(m0, m2, kroot, r, s, v)
    {
      RootStays(t0, p0, t1, p1, kroot, r, s);
      EntryTrans(m0, m1, m2, r, s, v);
      assert UpperConfined(m0, m1, kroot, r, s, v) && UpperConfined(m1, m2, kroot, r, s, v);
      UpperTrans(m0, m1, m2, kroot, r, s, v);
    }
  }

  lemma UpperTrans(m0: Memory, m1: Memory, m2: Memory, kroot: nat, r: nat, s: nat, v: nat)
    requires EntryConfined(m0, m1, r, s, v)
    requires UpperConfined(m0, m1, kroot, r, s, v) && UpperConfined(m1, m2, kroot, r, s, v)
    ensures UpperConfined(m0, m2, kroot, r, s, v)
  {
    hide Entry, Idx, UpperRights;
  }

  lemma {:induction false} RootStays(t0: Tables, p0: Pages, t1: Tables, p1: Pages, kroot: nat, r: nat, s: nat)
    requires OwnersConfined(t0, p0, t1, p1, kroot, r) && IsRoot(t0, s)
    ensures IsRoot(t1, s)
  {
  }

  lemma EntryTrans(m0: Memory, m1: Memory, m2: Memory, r: nat, s: nat, v: nat)
    requires EntryConfined(m0, m1, r, s, v) && EntryConfined(m1, m2, r, s, v)
    ensures EntryConfined(m0, m2, r, s, v)
  {
    hide Entry, Idx;
  }

  lemma SlotsTrans(m0: Memory, m1: Memory, m2: Memory, kroot: nat)
    requires SlotsKept(m0, m1, kroot) && SlotsKept(m1, m2, kroot)
    ensures SlotsKept(m0, m2, kroot)
  {
    forall i: nat | Present(Read(m0, kroot, i)) ensures Present(Read(m2, kroot, i)) {
      assert Present(Read(m1, kroot, i));
    }
  }

  lemma {:induction false} OwnersTrans(t0: Tables, p0: Pages, t1: Tables, p1: Pages, t2: Tables, p2: Pages, kroot: nat,
                                       r: nat)
    requires OwnersConfined(t0, p0, t1, p1, kroot, r) && OwnersConfined(t1, p1, t2, p2, kroot, r)
    ensures OwnersConfined(t0, p0, t2, p2, kroot, r)
  {
    hide HeapPage;
  }

  lemma {:induction false} MemTrans(m0: Memory, t0: Tables, p0: Pages, m1: Memory, t1: Tables, p1: Pages, m2: Memory,
                                    t2: Tables, p2: Pages, kroot: nat, r: nat)
    requires OwnersConfined(t0, p0, t1, p1, kroot, r) && OwnersConfined(t1, p1, t2, p2, kroot, r)
    requires MemConfined(m0, t0, p0, m1, t1, p1, kroot, r) && MemConfined(m1, t1, p1, m2, t2, p2, kroot, r)
    ensures MemConfined(m0, t0, p0, m2, t2, p2, kroot, r)
  {
    hide HeapPage;
  }

  lemma {:induction false} SlotsStay(m0: Memory, m1: Memory, tab: Tables, kroot: nat)
    requires WalksKept(m0, m1, tab) && IsRoot(tab, kroot)
    ensures SlotsKept(m0, m1, kroot)
  {
    forall i: nat | Present(Read(m0, kroot, i)) ensures Present(Read(m1, kroot, i)) {
      var v := i * SLOT_PAGES;
      UpValues(v);
      WalkStep(m0, kroot, v, 0, kroot);
      assert WalkKept(m0, m1, kroot, v, 1);
      WalkStep(m1, kroot, v, 0, kroot);
    }
  }

  // No table of another space is written, and the kernel keeps the tables of its mapped pages.
  lemma {:induction false} RightsAreConfined(m0: Memory, t0: Tables, m1: Memory, kroot: nat, r: nat)
    requires TableWf(m0, t0, kroot) && WalksKept(m0, m1, t0) && |m1| == |m0|
    requires forall g :: 0 <= g < |m0| && g in t0 && t0[g].root != r && t0[g].root != kroot ==> m1[g] == m0[g]
    ensures RightsConfined(m0, t0, m1, kroot, r)
  {
    hide TableWf, TableAt, Entry, UpperTo, WalksKept;
    forall s, v: nat | IsRoot(t0, s) && v < VPN_LIMIT ensures UpperConfined(m0, m1, kroot, r, s, v) {
      if v < USER_LIMIT {
        if s != r && s != kroot {
          UpperStays(m0, m1, t0, kroot, s, v, 3);
        }
      } else if Present(Entry(m0, s, v)) {
        MappedHasTables(m0, s, v);
        MappedKeepsUpper(m0, m1, t0, s, v);
      }
    }
  }

  lemma {:induction false} GrowthIsConfined(m0: Memory, t0: Tables, p0: Pages, m1: Memory, t1: Tables, p1: Pages,
                                            kroot: nat, r: nat)
    requires KernelGrowth(m0, t0, p0, m1, t1, p1, kroot, HEAP_SLOT) && IsRoot(t0, kroot) && TableWf(m0, t0, kroot)
    ensures Confined(m0, t0, p0, m1, t1, p1, kroot, r)
  {
    SlotsStay(m0, m1, t0, kroot);
    hide Entry, WalksKept, Idx, SlotsKept, TableWf, RightsConfined;
    RightsAreConfined(m0, t0, m1, kroot, r);
    forall s, v: nat | IsRoot(t0, s) && v < VPN_LIMIT ensures EntryConfined(m0, m1, r, s, v) {
      assert EntryKept(m0, m1, HEAP_SLOT, s, v);
    }
  }

  lemma {:induction false} MappingIsConfined(m0: Memory, t0: Tables, p0: Pages, m1: Memory, t1: Tables, p1: Pages,
                                             kroot: nat, r: nat, start: nat, n: nat)
    requires Structure(m0, t0, m1, t1, r) && AllOutsideKept(m0, m1, t0, r, start, n) && start + n <= USER_LIMIT
    requires PagesGrowIn(p0, p1, r, start, start + n) && IsRoot(t0, kroot) && TableWf(m0, t0, kroot)
    ensures Confined(m0, t0, p0, m1, t1, p1, kroot, r)
  {
    SlotsStay(m0, m1, t0, kroot);
    hide Entry, WalksKept, Idx, SlotsKept, TableWf, RightsConfined;
    RightsAreConfined(m0, t0, m1, kroot, r);
    forall s, v: nat | IsRoot(t0, s) && v < VPN_LIMIT ensures EntryConfined(m0, m1, r, s, v) {
      assert OutsideKept(m0, m1, r, start, n, s, v);
    }
  }

  // Another space's user half reads the same, with the same rights.
  lemma {:induction false} ConfinedEntry(m0: Memory, t0: Tables, p0: Pages, m1: Memory, t1: Tables, p1: Pages,
                                         kroot: nat, r: nat, s: nat, v: nat)
    requires Confined(m0, t0, p0, m1, t1, p1, kroot, r) && IsRoot(t0, s) && s != r && v < USER_LIMIT
    ensures IsRoot(t1, s) && Entry(m1, s, v) == Entry(m0, s, v)
    ensures s != kroot ==> UpperRights(m1, s, v) == UpperRights(m0, s, v)
  {
    hide Entry, UpperRights;
    UpValues(v);
    assert EntryConfined(m0, m1, r, s, v) && UpperConfined(m0, m1, kroot, r, s, v);
  }

  // So does every kernel page outside the heap's window, in every space.
  lemma {:induction false} ConfinedKernelEntry(m0: Memory, t0: Tables, p0: Pages, m1: Memory, t1: Tables, p1: Pages,
                                               kroot: nat, r: nat, s: nat, v: nat)
    requires Confined(m0, t0, p0, m1, t1, p1, kroot, r) && IsRoot(t0, s)
    requires USER_LIMIT <= v < VPN_LIMIT && Idx(v, 0) != HEAP_SLOT
    ensures IsRoot(t1, s) && Entry(m1, s, v) == Entry(m0, s, v)
  {
    hide Entry, UpperRights;
    assert EntryConfined(m0, m1, r, s, v);
  }

  // A mapped kernel page keeps its rights everywhere.
  lemma {:induction false} ConfinedKernelRights(m0: Memory, t0: Tables, p0: Pages, m1: Memory, t1: Tables, p1: Pages,
                                                kroot: nat, r: nat, s: nat, v: nat)
    requires Confined(m0, t0, p0, m1, t1, p1, kroot, r) && IsRoot(t0, s)
    requires USER_LIMIT <= v < VPN_LIMIT && Present(Entry(m0, s, v))
    ensures Entry(m1, s, v) == Entry(m0, s, v) && PageRights(m1, s, v) == PageRights(m0, s, v)
  {
    hide Entry, UpperRights, RightsOf;
    assert EntryConfined(m0, m1, r, s, v) && UpperConfined(m0, m1, kroot, r, s, v);
  }

  // A data page keeps its frame and its contents.
  lemma {:induction false} ConfinedPage(m0: Memory, t0: Tables, p0: Pages, m1: Memory, t1: Tables, p1: Pages,
                                        kroot: nat, r: nat, f: nat)
    requires Confined(m0, t0, p0, m1, t1, p1, kroot, r) && f in p0 && f < |m0| && f !in t1
    ensures f in p1 && p1[f] == p0[f] && |m1| == |m0| && m1[f] == m0[f]
  {
  }

  // A new PML4 r.
  lemma {:induction false} NewRootIsConfined(m0: Memory, t0: Tables, p0: Pages, m1: Memory, kroot: nat, r: nat)
    requires r !in t0 && |m1| == |m0| && (forall g :: 0 <= g < |m0| && g != r ==> m1[g] == m0[g])
              && SameEntries(m0, m1, t0)
    requires kroot in t0 && TableWf(m0, t0, kroot)
    ensures Confined(m0, t0, p0, m1, t0[r := TableInfo(r, 0, 0, r)], p0, kroot, r)
  {
    hide Entry, TableWf, UpperTo, TableAt;
    forall s, v: nat | IsRoot(t0, s) && v < VPN_LIMIT ensures UpperConfined(m0, m1, kroot, r, s, v) {
      WalkUnchanged(m0, m1, t0, kroot, s, v, 3);
    }
  }

  // ---- A space that is gone ----

  // Everything but the space r is as before, apart from what the kernel heap grew by; of r
  // nothing is left.
  ghost predicate Dropped(m0: Memory, t0: Tables, p0: Pages, m1: Memory, t1: Tables, p1: Pages, kroot: nat, r: nat) {
    && |m1| == |m0| && SlotsKept(m0, m1, kroot) && RightsConfined(m0, t0, m1, kroot, r)
    && (forall g :: g in t0 && t0[g].root != r ==> g in t1)
    && (forall g :: g in t1 ==>
          && t1[g].root != r
          && if g in t0 then t1[g] == t0[g] else t1[g].root == kroot && t1[g].depth > 0)
    && (forall f :: f in p0 && p0[f].root != r ==> f in p1)
    && (forall f :: f in p1 ==> p1[f].root != r && (if f in p0 then p1[f] == p0[f] else HeapPage(p1[f], kroot)))
    && (forall f: nat :: f in p0 && p0[f].root != r && f < |m0| ==> m1[f] == m0[f])
    && (forall g: nat :: g in t0 && t0[g].root != r && t0[g].root != kroot && g < |m0| ==> m1[g] == m0[g])
    && forall s, v: nat {:trigger EntryKept(m0, m1, HEAP_SLOT, s, v)} ::
         IsRoot(t0, s) && s != r && v < VPN_LIMIT ==> EntryKept(m0, m1, HEAP_SLOT, s, v)
  }

  lemma {:induction false} ConfinedThenDropped(m0: Memory, t0: Tables, p0: Pages, m1: Memory, t1: Tables, p1: Pages,
                                               kroot: nat, r: nat)
    requires Confined(m0, t0, p0, m1, t1, p1, kroot, r) && TableWf(m1, t1, kroot) && forall f :: f in p1 ==> f !in t1
    ensures Dropped(m0, t0, p0, m1, WithoutSpace(t1, r), PagesWithout(p1, r), kroot, r)
  {
    hide Entry, EntryKept, Idx, HeapPage, TableWf, SlotsKept, RightsConfined;
    forall g | g in t1 && t1[g].root != r ensures g in t0 || t1[g].depth > 0 {
      Linked(m1, t1, kroot, g);
    }
    forall s, v: nat | IsRoot(t0, s) && s != r && v < VPN_LIMIT ensures EntryKept(m0, m1, HEAP_SLOT, s, v) {
      assert EntryConfined(m0, m1, r, s, v);
    }
  }

  lemma UserIsNotHeap()
    ensures forall v: nat :: v < USER_LIMIT ==> Idx(v, 0) != HEAP_SLOT && Idx(v, 0) != STACK_SLOT
  {
    forall v: nat | v < USER_LIMIT ensures Idx(v, 0) != HEAP_SLOT && Idx(v, 0) != STACK_SLOT {
      UpValues(v);
    }
  }

  lemma {:induction false} DroppedEntry(m0: Memory, t0: Tables, p0: Pages, m1: Memory, t1: Tables, p1: Pages,
                                        kroot: nat, r: nat, s: nat, v: nat)
    requires Dropped(m0, t0, p0, m1, t1, p1, kroot, r) && IsRoot(t0, s) && s != r && t0[s].root == s && v < VPN_LIMIT
    requires Idx(v, 0) != HEAP_SLOT
    ensures IsRoot(t1, s) && Entry(m1, s, v) == Entry(m0, s, v)
    ensures v < USER_LIMIT && s != kroot ==> UpperRights(m1, s, v) == UpperRights(m0, s, v)
  {
    hide Entry, UpperRights;
    assert EntryKept(m0, m1, HEAP_SLOT, s, v) && UpperConfined(m0, m1, kroot, r, s, v);
  }

  lemma {:induction false} DroppedKernelRights(m0: Memory, t0: Tables, p0: Pages, m1: Memory, t1: Tables, p1: Pages,
                                               kroot: nat, r: nat, v: nat)
    requires Dropped(m0, t0, p0, m1, t1, p1, kroot, r) && IsRoot(t0, kroot) && kroot != r
    requires USER_LIMIT <= v < VPN_LIMIT && Present(Entry(m0, kroot, v))
    ensures Entry(m1, kroot, v) == Entry(m0, kroot, v) && PageRights(m1, kroot, v) == PageRights(m0, kroot, v)
  {
    hide Entry, UpperRights, RightsOf;
    assert EntryKept(m0, m1, HEAP_SLOT, kroot, v) && UpperConfined(m0, m1, kroot, r, kroot, v);
  }
}
