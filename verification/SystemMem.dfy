/** The memory part of the system's invariant, and what the operations on spaces, heap and stacks leave alone:
    the user half of every other space, the mapped pages of heap and stacks, and the contents of all of them.
  */
module SystemMem {
  import opened Common
  import opened Pte
  import opened PageTable
  import opened Machine
  import opened MapPages
  import opened Confine
  import opened Kstack
  import opened Vmm
  import opened Fork

  // ---- All live spaces ----

  datatype SpaceView = SpaceView(root: nat, vmas: seq<Vma>)

  predicate RootListed(sv: seq<SpaceView>, g: nat) { exists i :: 0 <= i < |sv| && sv[i].root == g }

  ghost predicate HeldAt(mem: Memory, tab: Tables, kroot: nat, s: SpaceView) {
    Covered(mem, tab, kroot, s.root, s.vmas)
  }

  // The spaces are separate trees, whatever each has mapped lies in its own areas, and there is
  // no other PML4 but the kernel's.
  ghost predicate Held(mem: Memory, tab: Tables, kroot: nat, sv: seq<SpaceView>) {
    && (forall i :: 0 <= i < |sv| ==> HeldAt(mem, tab, kroot, sv[i]))
    && (forall i, j :: 0 <= i < j < |sv| ==> sv[i].root != sv[j].root)
    && (forall g :: IsRoot(tab, g) && g != kroot ==> RootListed(sv, g))
  }

  function Without(sv: seq<SpaceView>, i: nat): seq<SpaceView>
    requires i < |sv|
  {
    sv[..i] + sv[i + 1..]
  }

  lemma {:induction false} HeldParts(mem: Memory, tab: Tables, kroot: nat, sv: seq<SpaceView>, i: nat)
    requires Held(mem, tab, kroot, sv) && i < |sv|
    ensures Covered(mem, tab, kroot, sv[i].root, sv[i].vmas)
    ensures IsRoot(tab, sv[i].root) && sv[i].root != kroot && VmasOk(sv[i].vmas)
    ensures forall j :: 0 <= j < |sv| && j != i ==> sv[j].root != sv[i].root
  {
    assert HeldAt(mem, tab, kroot, sv[i]);
  }

  // ---- Kernel stacks ----

  // Stack page j lies in one of the stacks.
  predicate InStack(owned: seq<nat>, j: nat) {
    exists b :: b in owned && b <= j < b + STACK_PAGES
  }

  // No page of the stack window is mapped but those of the stacks.
  ghost predicate StacksHeld(mem: Memory, kroot: nat, owned: seq<nat>) {
    forall j {:trigger StackVpn(j)} ::
      0 <= j < SLOT_PAGES && Present(Entry(mem, kroot, StackVpn(j))) ==> InStack(owned, j)
  }

  // Both windows have their PML4 slots, so that every space shares them; the stack window is free
  // from `next` on, and below it only the stacks' pages are mapped.
  ghost predicate Booted(mem: Memory, kroot: nat, next: nat, owned: seq<nat>) {
    && Present(Read(mem, kroot, HEAP_SLOT)) && Present(Read(mem, kroot, STACK_SLOT))
    && next <= SLOT_PAGES && UnmappedFrom(mem, kroot, next) && StacksHeld(mem, kroot, owned)
  }

  // Kernel stacks lie below `next`, each with its guard page in front, and share no pages.
  predicate StacksOk(stacks: seq<nat>, next: nat) {
    && (forall i :: 0 <= i < |stacks| ==> 0 < stacks[i] && stacks[i] + STACK_PAGES <= next)
    && (forall i, j :: 0 <= i < j < |stacks| ==>
          stacks[i] + STACK_PAGES < stacks[j] || stacks[j] + STACK_PAGES < stacks[i])
  }

  // All pages of a stack are mapped, writable and for the kernel alone.
  ghost predicate StackReady(mem: Memory, kroot: nat, base: nat) {
    forall j {:trigger StackVpn(j)} ::
      base <= j < base + STACK_PAGES ==> KernelPage(Entry(mem, kroot, StackVpn(j)))
  }

  // The guard page of a stack belongs to no stack, so it is not mapped.
  lemma {:induction false} GuardUnmapped(mem: Memory, kroot: nat, owned: seq<nat>, next: nat, i: nat)
    requires StacksOk(owned, next) && StacksHeld(mem, kroot, owned) && i < |owned| && next <= SLOT_PAGES
    ensures owned[i] > 0 && !Present(Entry(mem, kroot, StackVpn(owned[i] - 1)))
  {
    hide Entry, Present, UpperRights, RightsOf;
    var g := owned[i] - 1;
    if InStack(owned, g) {
      var b :| b in owned && b <= g < b + STACK_PAGES;
      var j :| 0 <= j < |owned| && owned[j] == b;
      assert j != i;
    }
  }

  // ---- A space that is left alone ----

  // Page v translates as before through the PML4 g, with the same rights, and its contents are as before.
  predicate PageKept(m0: Memory, m1: Memory, g: nat, v: nat) {
    && Entry(m1, g, v) == Entry(m0, g, v)
    && (Present(Entry(m0, g, v)) ==>
          && PageRights(m1, g, v) == PageRights(m0, g, v)
          && FrameOf(Entry(m0, g, v)) < |m0| && FrameOf(Entry(m0, g, v)) < |m1|
          && m1[FrameOf(Entry(m0, g, v))] == m0[FrameOf(Entry(m0, g, v))])
  }

  // All its user pages, and what the entries above them allow.
  ghost predicate SpaceKept(m0: Memory, m1: Memory, g: nat) {
    forall v: nat {:trigger PageKept(m0, m1, g, v)} :: v < USER_LIMIT ==>
      PageKept(m0, m1, g, v) && UpperRights(m1, g, v) == UpperRights(m0, g, v)
  }

  // All spaces but the one at this place.
  ghost predicate SpacesKept(sv: seq<SpaceView>, skip: int, m0: Memory, m1: Memory) {
    forall i {:trigger sv[i]} :: 0 <= i < |sv| && i != skip ==> SpaceKept(m0, m1, sv[i].root)
  }

  // The user pages of space g outside the range.
  ghost predicate RestKept(m0: Memory, m1: Memory, g: nat, start: nat, n: nat) {
    forall v: nat {:trigger PageKept(m0, m1, g, v)} ::
      v < USER_LIMIT && !(start <= v < start + n) ==> PageKept(m0, m1, g, v)
  }

  lemma {:induction false} SpaceKeptTrans(m0: Memory, m1: Memory, m2: Memory, g: nat)
    requires SpaceKept(m0, m1, g) && SpaceKept(m1, m2, g)
    ensures SpaceKept(m0, m2, g)
  {
    hide Entry, Present, FrameOf, UpperRights, RightsOf;
    forall v: nat | v < USER_LIMIT
      ensures PageKept(m0, m2, g, v) && UpperRights(m2, g, v) == UpperRights(m0, g, v)
    {
      assert PageKept(m0, m1, g, v) && PageKept(m1, m2, g, v);
    }
  }

  lemma {:induction false} KeptByConfined(m0: Memory, t0: Tables, p0: Pages, m1: Memory, t1: Tables, p1: Pages,
                                          kroot: nat, r: nat, g: nat)
    requires PagesWf(m0, t0, p0, kroot) && Confined(m0, t0, p0, m1, t1, p1, kroot, r)
    requires forall f :: f in p1 ==> f !in t1
    requires IsRoot(t0, g) && g != kroot && g != r
    ensures SpaceKept(m0, m1, g)
  {
    hide Entry, Present, FrameOf, PagesWf, UpperRights, RightsOf;
    forall v: nat | v < USER_LIMIT
      ensures PageKept(m0, m1, g, v) && UpperRights(m1, g, v) == UpperRights(m0, g, v)
    {
      ConfinedEntry(m0, t0, p0, m1, t1, p1, kroot, r, g, v);
      if Present(Entry(m0, g, v)) {
        ConfinedContents(m0, t0, p0, m1, t1, p1, kroot, r, g, v);
      }
    }
  }

  lemma {:induction false} ConfinedContents(m0: Memory, t0: Tables, p0: Pages, m1: Memory, t1: Tables, p1: Pages,
                                            kroot: nat, r: nat, g: nat, v: nat)
    requires PagesWf(m0, t0, p0, kroot) && Confined(m0, t0, p0, m1, t1, p1, kroot, r)
    requires forall f :: f in p1 ==> f !in t1
    requires IsRoot(t0, g) && g != kroot && v < USER_LIMIT && Present(Entry(m0, g, v))
    ensures var f := FrameOf(Entry(m0, g, v)); f < |m0| && f < |m1| && m1[f] == m0[f]
  {
    hide Entry, Present, FrameOf, PagesWf, UpperRights, RightsOf;
    TargetHeld(m0, t0, p0, kroot, g, v);
    ConfinedPage(m0, t0, p0, m1, t1, p1, kroot, r, FrameOf(Entry(m0, g, v)));
  }

  // The space r itself, outside the range that was mapped.
  lemma {:induction false} RestByConfined(m0: Memory, t0: Tables, p0: Pages, m1: Memory, t1: Tables, p1: Pages,
                                          kroot: nat, r: nat, start: nat, n: nat)
    requires PagesWf(m0, t0, p0, kroot) && Confined(m0, t0, p0, m1, t1, p1, kroot, r)
    requires forall f :: f in p1 ==> f !in t1
    requires IsRoot(t0, r) && r != kroot && KeptOutside(m0, m1, r, start, n)
    ensures RestKept(m0, m1, r, start, n)
  {
    hide Entry, Present, FrameOf, PagesWf, Confined, UpperRights, RightsOf;
    forall v: nat | v < USER_LIMIT && !(start <= v < start + n) ensures PageKept(m0, m1, r, v) {
      if Present(Entry(m0, r, v)) {
        ConfinedContents(m0, t0, p0, m1, t1, p1, kroot, r, r, v);
      }
    }
  }

  lemma {:induction false} KeptByDropped(m0: Memory, t0: Tables, p0: Pages, m1: Memory, t1: Tables, p1: Pages,
                                         kroot: nat, r: nat, g: nat)
    requires PagesWf(m0, t0, p0, kroot) && Dropped(m0, t0, p0, m1, t1, p1, kroot, r)
    requires IsRoot(t0, g) && g != kroot && g != r && t0[g].root == g
    ensures SpaceKept(m0, m1, g)
  {
    hide Entry, Present, FrameOf, PagesWf, Idx, UpperRights, RightsOf;
    UserIsNotHeap();
    forall v: nat | v < USER_LIMIT
      ensures PageKept(m0, m1, g, v) && UpperRights(m1, g, v) == UpperRights(m0, g, v)
    {
      DroppedEntry(m0, t0, p0, m1, t1, p1, kroot, r, g, v);
      if Present(Entry(m0, g, v)) {
        TargetHeld(m0, t0, p0, kroot, g, v);
      }
    }
  }

  // No walk to a user page through this PML4 has changed.
  ghost predicate UserHalfSame(m0: Memory, m1: Memory, r: nat) {
    forall v: nat {:trigger Entry(m1, r, v)} :: v < USER_LIMIT ==>
      Entry(m1, r, v) == Entry(m0, r, v) && UpperRights(m1, r, v) == UpperRights(m0, r, v)
  }

  // Only kernel tables and unlisted frames are written.
  lemma {:induction false} KeptByStacks(m0: Memory, t0: Tables, p0: Pages, m1: Memory, t1: Tables, kroot: nat, g: nat)
    requires PagesWf(m0, t0, p0, kroot) && MemGrows(m0, m1, t0, t1, kroot) && forall f :: f in p0 ==> f !in t1
    requires UserHalfSame(m0, m1, g) && IsRoot(t0, g) && g != kroot
    ensures SpaceKept(m0, m1, g)
  {
    hide Entry, Present, FrameOf, PagesWf, UpperRights, RightsOf;
    forall v: nat | v < USER_LIMIT
      ensures PageKept(m0, m1, g, v) && UpperRights(m1, g, v) == UpperRights(m0, g, v)
    {
      assert Entry(m1, g, v) == Entry(m0, g, v);
      if Present(Entry(m0, g, v)) {
        TargetHeld(m0, t0, p0, kroot, g, v);
      }
    }
  }

  // ---- For all listed spaces ----

  lemma {:induction false} SpacesByConfined(m0: Memory, t0: Tables, p0: Pages, m1: Memory, t1: Tables, p1: Pages,
                                            kroot: nat, r: nat, sv: seq<SpaceView>, skip: int)
    requires Held(m0, t0, kroot, sv) && PagesWf(m0, t0, p0, kroot) && Confined(m0, t0, p0, m1, t1, p1, kroot, r)
    requires (forall f :: f in p1 ==> f !in t1) && forall i :: 0 <= i < |sv| && i != skip ==> sv[i].root != r
    ensures SpacesKept(sv, skip, m0, m1)
  {
    hide Held, PagesWf, Confined, Covered, SpaceKept;
    forall i | 0 <= i < |sv| && i != skip ensures SpaceKept(m0, m1, sv[i].root) {
      HeldParts(m0, t0, kroot, sv, i);
      KeptByConfined(m0, t0, p0, m1, t1, p1, kroot, r, sv[i].root);
    }
  }

  lemma {:induction false} SpacesByDropped(m0: Memory, t0: Tables, p0: Pages, m1: Memory, t1: Tables, p1: Pages,
                                           kroot: nat, r: nat, sv: seq<SpaceView>, skip: int)
    requires Held(m0, t0, kroot, sv) && TableWf(m0, t0, kroot) && PagesWf(m0, t0, p0, kroot)
    requires Dropped(m0, t0, p0, m1, t1, p1, kroot, r)
    requires forall i :: 0 <= i < |sv| && i != skip ==> sv[i].root != r
    ensures SpacesKept(sv, skip, m0, m1)
  {
    hide Held, PagesWf, TableWf, Dropped, Covered, SpaceKept;
    forall i | 0 <= i < |sv| && i != skip ensures SpaceKept(m0, m1, sv[i].root) {
      HeldParts(m0, t0, kroot, sv, i);
      Linked(m0, t0, kroot, sv[i].root);
      KeptByDropped(m0, t0, p0, m1, t1, p1, kroot, r, sv[i].root);
    }
  }

  lemma {:induction false} SpacesByStacks(m0: Memory, t0: Tables, p0: Pages, m1: Memory, t1: Tables, kroot: nat,
                                          sv: seq<SpaceView>)
    requires Held(m0, t0, kroot, sv) && PagesWf(m0, t0, p0, kroot) && MemGrows(m0, m1, t0, t1, kroot)
    requires forall f :: f in p0 ==> f !in t1
    requires forall r :: IsRoot(t0, r) && r != kroot ==> UserHalfSame(m0, m1, r)
    ensures SpacesKept(sv, -1, m0, m1)
  {
    hide Held, PagesWf, MemGrows, Covered, SpaceKept, Entry, UserHalfSame, UpperRights, RightsOf;
    forall i | 0 <= i < |sv| ensures SpaceKept(m0, m1, sv[i].root) {
      HeldParts(m0, t0, kroot, sv, i);
      KeptByStacks(m0, t0, p0, m1, t1, kroot, sv[i].root);
    }
  }

  lemma SpacesRefl(sv: seq<SpaceView>, skip: int, m: Memory, tab: Tables, pages: Pages, kroot: nat)
    requires Held(m, tab, kroot, sv) && PagesWf(m, tab, pages, kroot)
    ensures SpacesKept(sv, skip, m, m)
  {
    hide Held, PagesWf, Covered, Entry, Present, FrameOf, UpperRights, RightsOf;
    forall i | 0 <= i < |sv| ensures SpaceKept(m, m, sv[i].root) {
      HeldParts(m, tab, kroot, sv, i);
      forall v: nat | v < USER_LIMIT ensures PageKept(m, m, sv[i].root, v) {
        if Present(Entry(m, sv[i].root, v)) {
          TargetHeld(m, tab, pages, kroot, sv[i].root, v);
        }
      }
    }
  }

  lemma SpacesTrans(sv: seq<SpaceView>, skip: int, m0: Memory, m1: Memory, m2: Memory)
    requires SpacesKept(sv, skip, m0, m1) && SpacesKept(sv, skip, m1, m2)
    ensures SpacesKept(sv, skip, m0, m2)
  {
    hide SpaceKept;
    forall i | 0 <= i < |sv| && i != skip ensures SpaceKept(m0, m2, sv[i].root) {
      SpaceKeptTrans(m0, m1, m2, sv[i].root);
    }
  }

  // ---- The kernel's pages ----

  // One of the pages of a stack that is given back; -1 for none.
  predicate FreedPage(freed: int, v: nat) { freed >= 0 && StackVpn(freed) <= v < StackVpn(freed + STACK_PAGES) }

  // Each mapped page of the kernel's heap and stacks still leads to the same frame with the same contents.
  ghost predicate KernelKept(m0: Memory, m1: Memory, kroot: nat, freed: int) {
    forall v: nat {:trigger PageKept(m0, m1, kroot, v)} ::
      OwnsPage(kroot, kroot, v) && Present(Entry(m0, kroot, v)) && !FreedPage(freed, v) ==> PageKept(m0, m1, kroot, v)
  }

  lemma {:induction false} KernelHeld(m: Memory, tab: Tables, pages: Pages, kroot: nat, v: nat)
    requires PagesWf(m, tab, pages, kroot) && IsRoot(tab, kroot) && OwnsPage(kroot, kroot, v)
    requires Present(Entry(m, kroot, v))
    ensures var f := FrameOf(Entry(m, kroot, v)); f in pages && pages[f].root == kroot && f < |m|
  {
    hide Entry, FrameOf, UpperRights, RightsOf;
    ListedPage(m, tab, pages, kroot, kroot, v);
    HeldPage(m, tab, pages, kroot, FrameOf(Entry(m, kroot, v)));
  }

  lemma {:induction false} KernelByConfined(m0: Memory, t0: Tables, p0: Pages, m1: Memory, t1: Tables, p1: Pages,
                                            kroot: nat, r: nat)
    requires PagesWf(m0, t0, p0, kroot) && Confined(m0, t0, p0, m1, t1, p1, kroot, r)
    requires IsRoot(t0, kroot) && forall f :: f in p1 ==> f !in t1
    ensures KernelKept(m0, m1, kroot, -1)
  {
    hide Entry, Present, FrameOf, PagesWf, Idx, UpperRights, RightsOf;
    KernelIsAbove();
    forall v: nat | OwnsPage(kroot, kroot, v) && Present(Entry(m0, kroot, v)) ensures PageKept(m0, m1, kroot, v) {
      ConfinedKernelRights(m0, t0, p0, m1, t1, p1, kroot, r, kroot, v);
      KernelHeld(m0, t0, p0, kroot, v);
      ConfinedPage(m0, t0, p0, m1, t1, p1, kroot, r, FrameOf(Entry(m0, kroot, v)));
    }
  }

  lemma KernelIsAbove()
    ensures forall v: nat {:trigger InHeapWindow(v)} {:trigger InStackWindow(v)} ::
              InHeapWindow(v) || InStackWindow(v) ==> USER_LIMIT <= v < VPN_LIMIT
  {
    forall v: nat | InHeapWindow(v) || InStackWindow(v) ensures USER_LIMIT <= v < VPN_LIMIT {
      UpValues(v);
    }
  }

  lemma {:induction false} KernelByDropped(m0: Memory, t0: Tables, p0: Pages, m1: Memory, t1: Tables, p1: Pages,
                                           kroot: nat, r: nat)
    requires PagesWf(m0, t0, p0, kroot) && Dropped(m0, t0, p0, m1, t1, p1, kroot, r) && IsRoot(t0, kroot) && kroot != r
    ensures KernelKept(m0, m1, kroot, -1)
  {
    hide Entry, Present, FrameOf, PagesWf, Idx, UpperRights, RightsOf;
    KernelIsAbove();
    forall v: nat | OwnsPage(kroot, kroot, v) && Present(Entry(m0, kroot, v)) ensures PageKept(m0, m1, kroot, v) {
      DroppedKernelRights(m0, t0, p0, m1, t1, p1, kroot, r, v);
      KernelHeld(m0, t0, p0, kroot, v);
    }
  }

  lemma {:induction false} KernelByGrowth(m0: Memory, t0: Tables, p0: Pages, m1: Memory, t1: Tables, p1: Pages,
                                          kroot: nat, slot: nat)
    requires PagesWf(m0, t0, p0, kroot) && KernelGrowth(m0, t0, p0, m1, t1, p1, kroot, slot) && IsRoot(t0, kroot)
    requires forall f :: f in p1 ==> f !in t1
    ensures KernelKept(m0, m1, kroot, -1)
  {
    hide Entry, Present, FrameOf, PagesWf, Idx, WalksKept, TabGrows, UpperRights, RightsOf;
    KernelIsAbove();
    ZeroIsAbsent();
    forall v: nat | OwnsPage(kroot, kroot, v) && Present(Entry(m0, kroot, v)) ensures PageKept(m0, m1, kroot, v) {
      assert EntryKept(m0, m1, slot, kroot, v);
      MappedHasTables(m0, kroot, v);
      MappedKeepsUpper(m0, m1, t0, kroot, v);
      KernelHeld(m0, t0, p0, kroot, v);
    }
  }

  lemma {:induction false} KernelByShrinking(m0: Memory, m1: Memory, tab: Tables, p0: Pages, kroot: nat, lo: nat)
    requires PagesWf(m0, tab, p0, kroot) && StackShrunk(m0, m1, tab, kroot, lo, lo + STACK_PAGES)
    requires IsRoot(tab, kroot) && forall f :: f in p0 ==> f !in tab
    ensures KernelKept(m0, m1, kroot, lo)
  {
    hide Entry, Present, FrameOf, PagesWf, Idx, WalksKept, UpperRights, RightsOf;
    KernelIsAbove();
    ZeroIsAbsent();
    forall v: nat | OwnsPage(kroot, kroot, v) && Present(Entry(m0, kroot, v)) && !FreedPage(lo, v)
      ensures PageKept(m0, m1, kroot, v)
    {
      assert EntryShrunk(m0, m1, kroot, v, lo, lo + STACK_PAGES);
      MappedHasTables(m0, kroot, v);
      MappedKeepsUpper(m0, m1, tab, kroot, v);
      KernelHeld(m0, tab, p0, kroot, v);
    }
  }

  lemma {:induction false} KernelRefl(m: Memory, tab: Tables, pages: Pages, kroot: nat, freed: int)
    requires PagesWf(m, tab, pages, kroot) && IsRoot(tab, kroot)
    ensures KernelKept(m, m, kroot, freed)
  {
    hide Entry, Present, FrameOf, PagesWf, OwnsPage, UpperRights, RightsOf;
    forall v: nat | OwnsPage(kroot, kroot, v) && Present(Entry(m, kroot, v)) ensures PageKept(m, m, kroot, v) {
      KernelHeld(m, tab, pages, kroot, v);
    }
  }

  lemma {:induction false} KernelTrans(m0: Memory, m1: Memory, m2: Memory, kroot: nat, freed: int)
    requires KernelKept(m0, m1, kroot, freed) && KernelKept(m1, m2, kroot, freed)
    ensures KernelKept(m0, m2, kroot, freed)
  {
    hide Entry, Present, FrameOf, OwnsPage, UpperRights, RightsOf;
    forall v: nat | OwnsPage(kroot, kroot, v) && Present(Entry(m0, kroot, v)) && !FreedPage(freed, v)
      ensures PageKept(m0, m2, kroot, v)
    {
      assert PageKept(m0, m1, kroot, v);
      assert PageKept(m1, m2, kroot, v);
    }
  }

  // ---- Everything but one space ----

  // The other spaces and the kernel's pages.
  ghost predicate OthersKept(kroot: nat, sv: seq<SpaceView>, skip: int, m0: Memory, m1: Memory) {
    SpacesKept(sv, skip, m0, m1) && KernelKept(m0, m1, kroot, -1)
  }

  lemma {:induction false} OthersByConfined(m0: Memory, t0: Tables, p0: Pages, m1: Memory, t1: Tables, p1: Pages,
                                            kroot: nat, r: nat, sv: seq<SpaceView>, skip: int)
    requires Held(m0, t0, kroot, sv) && PagesWf(m0, t0, p0, kroot) && Confined(m0, t0, p0, m1, t1, p1, kroot, r)
    requires (forall f :: f in p1 ==> f !in t1) && forall i :: 0 <= i < |sv| && i != skip ==> sv[i].root != r
    requires IsRoot(t0, kroot)
    ensures OthersKept(kroot, sv, skip, m0, m1)
  {
    hide Held, PagesWf, Confined, SpacesKept, KernelKept;
    SpacesByConfined(m0, t0, p0, m1, t1, p1, kroot, r, sv, skip);
    KernelByConfined(m0, t0, p0, m1, t1, p1, kroot, r);
  }

  lemma {:induction false} OthersByDropped(m0: Memory, t0: Tables, p0: Pages, m1: Memory, t1: Tables, p1: Pages,
                                           kroot: nat, r: nat, sv: seq<SpaceView>, skip: int)
    requires Held(m0, t0, kroot, sv) && TableWf(m0, t0, kroot) && PagesWf(m0, t0, p0, kroot)
    requires Dropped(m0, t0, p0, m1, t1, p1, kroot, r) && IsRoot(t0, kroot) && kroot != r
    requires forall i :: 0 <= i < |sv| && i != skip ==> sv[i].root != r
    ensures OthersKept(kroot, sv, skip, m0, m1)
  {
    hide Held, PagesWf, TableWf, Dropped, SpacesKept, KernelKept;
    SpacesByDropped(m0, t0, p0, m1, t1, p1, kroot, r, sv, skip);
    KernelByDropped(m0, t0, p0, m1, t1, p1, kroot, r);
  }

  lemma OthersTrans(kroot: nat, sv: seq<SpaceView>, skip: int, m0: Memory, m1: Memory, m2: Memory)
    requires OthersKept(kroot, sv, skip, m0, m1) && OthersKept(kroot, sv, skip, m1, m2)
    ensures OthersKept(kroot, sv, skip, m0, m2)
  {
    hide SpacesKept, KernelKept;
    SpacesTrans(sv, skip, m0, m1, m2);
    KernelTrans(m0, m1, m2, kroot, -1);
  }

  // ---- Exactly the pages of the areas ----

  // A space that maps exactly its areas still does when it is left alone.
  lemma {:induction false} ExactStays(m0: Memory, t0: Tables, m1: Memory, t1: Tables, kroot: nat, g: nat,
                                      vmas: seq<Vma>)
    requires SpaceOk(m0, t0, kroot, g, vmas) && IsRoot(t1, g) && SpaceKept(m0, m1, g)
    ensures SpaceOk(m1, t1, kroot, g, vmas)
  {
    hide Entry, Present, FrameOf, InVmas, AsAsked, AllWritable, UpperRights, RightsOf;
    forall v: nat | v < USER_LIMIT ensures MappedIffListed(m1, g, vmas, v) {
      assert MappedIffListed(m0, g, vmas, v) && PageKept(m0, m1, g, v);
    }
  }

  // Also when a range outside its areas was tried and left unmapped.
  lemma {:induction false} ExactOutside(m0: Memory, t0: Tables, m1: Memory, t1: Tables, kroot: nat, g: nat,
                                        vmas: seq<Vma>, start: nat, n: nat)
    requires SpaceOk(m0, t0, kroot, g, vmas) && IsRoot(t1, g) && RestKept(m0, m1, g, start, n)
    requires RangeUnmapped(m1, g, start, n) && ApartFrom(vmas, start, n) && UppersKept(m0, m1, g, ALL_RIGHTS)
    ensures SpaceOk(m1, t1, kroot, g, vmas)
  {
    hide Entry, Present, FrameOf, AsAsked, AllWritable, UpperRights, RightsOf;
    forall v: nat | v < USER_LIMIT ensures MappedIffListed(m1, g, vmas, v) {
      assert UpperAllows(m0, m1, ALL_RIGHTS, g, v) && MappedIffListed(m0, g, vmas, v);
      if start <= v < start + n {
        assert !InVmas(vmas, v);
      } else {
        assert MappedIffListed(m0, g, vmas, v) && PageKept(m0, m1, g, v);
      }
    }
  }

  // What mm_map_range does to the memory of the space itself.
  ghost predicate MapEffect(done: bool, lossless: bool, m0: Memory, t0: Tables, p0: Pages, m1: Memory, t1: Tables,
                            kroot: nat, root: nat, va: nat, size: nat, flags: nat, vmas0: seq<Vma>, vmas1: seq<Vma>) {
    // the other pages of the space are as before
    && RestKept(m0, m1, root, FirstPage(va), if size == 0 then 0 else PageSpan(va, size))
    // what the entries above its pages allow, less what a read-only area takes away
    && UppersKept(m0, m1, root, VmaRights(flags))
    // the range has new frames, or is unmapped
    && (done && lossless ==> RangeMapped(m1, p0, root, PteFlags(flags), FirstPage(va), PageSpan(va, size)))
    && (!done && size > 0 ==> RangeUnmapped(m1, root, FirstPage(va), PageSpan(va, size)))
    // unless a table was missing or a released VMA was left, exactly the areas are mapped
    && (lossless && SpaceOk(m0, t0, kroot, root, vmas0) && (done || vmas1 == vmas0) ==>
          SpaceOk(m1, t1, kroot, root, vmas1))
  }

  lemma {:induction false} MapEffectIs(done: bool, lossless: bool, m0: Memory, t0: Tables, p0: Pages, m1: Memory,
                                       t1: Tables, p1: Pages, kroot: nat, root: nat, va: nat, size: nat, flags: nat,
                                       vmas0: seq<Vma>, vmas1: seq<Vma>)
    requires PagesWf(m0, t0, p0, kroot) && Confined(m0, t0, p0, m1, t1, p1, kroot, root)
    requires forall f :: f in p1 ==> f !in t1
    requires IsRoot(t0, root) && root != kroot && IsRoot(t1, root)
    requires KeptOutside(m0, m1, root, FirstPage(va), PageSpan(va, size))
    requires UppersKept(m0, m1, root, VmaRights(flags)) && (vmas1 == vmas0 ==> UppersKept(m0, m1, root, ALL_RIGHTS))
    requires size == 0 ==> !done && m1 == m0 && vmas1 == vmas0
    requires done && lossless ==> RangeMapped(m1, p0, root, PteFlags(flags), FirstPage(va), PageSpan(va, size))
    requires !done && size > 0 ==> RangeUnmapped(m1, root, FirstPage(va), PageSpan(va, size))
    requires done && lossless && SpaceOk(m0, t0, kroot, root, vmas0) ==> SpaceOk(m1, t1, kroot, root, vmas1)
    requires size > 0 ==> ApartFrom(vmas0, FirstPage(va), PageSpan(va, size))
    ensures MapEffect(done, lossless, m0, t0, p0, m1, t1, kroot, root, va, size, flags, vmas0, vmas1)
  {
    hide PagesWf, Confined, SpaceOk, RangeMapped, RangeUnmapped, FirstPage, PageSpan, PteFlags, ApartFrom, RestKept,
      KeptOutside, UppersKept, VmaRights, UpperRights;
    var n := if size == 0 then 0 else PageSpan(va, size);
    if size == 0 {
      SameIsKept(m0, m1, root, FirstPage(va));
    }
    RestByConfined(m0, t0, p0, m1, t1, p1, kroot, root, FirstPage(va), n);
    if !done && SpaceOk(m0, t0, kroot, root, vmas0) && vmas1 == vmas0 {
      if size == 0 {
        AllKept(m0, root, FirstPage(va));
        ExactStays(m0, t0, m1, t1, kroot, root, vmas0);
      } else {
        ExactOutside(m0, t0, m1, t1, kroot, root, vmas0, FirstPage(va), n);
      }
    }
  }

  lemma SameIsKept(m0: Memory, m1: Memory, root: nat, start: nat)
    requires m1 == m0
    ensures KeptOutside(m0, m1, root, start, 0)
  {
  }

  lemma {:induction false} AllKept(m: Memory, root: nat, start: nat)
    requires RestKept(m, m, root, start, 0)
    ensures SpaceKept(m, m, root)
  {
    hide Entry, Present, FrameOf, UpperRights, RightsOf;
  }

  // What a fork does to the memory of the child.
  ghost predicate ForkEffect(m0: Memory, t0: Tables, p0: Pages, m1: Memory, t1: Tables, kroot: nat, src: nat, dst: nat,
                             vmas: seq<Vma>) {
    SpaceOk(m0, t0, kroot, src, vmas) ==> SpaceOk(m1, t1, kroot, dst, vmas) && AreasCopied(m0, p0, m1, src, dst, vmas)
  }

  // The copies can be traced back to an earlier state of the parent.
  lemma {:induction false} ForkSince(m0: Memory, t0: Tables, p0: Pages, ma: Memory, ta: Tables, pa: Pages, m1: Memory,
                                     t1: Tables, kroot: nat, src: nat, dst: nat, vmas: seq<Vma>)
    requires ForkEffect(ma, ta, pa, m1, t1, kroot, src, dst, vmas) && SpaceKept(m0, ma, src) && IsRoot(ta, src)
    requires forall f :: f in p0 ==> f in pa
    ensures ForkEffect(m0, t0, p0, m1, t1, kroot, src, dst, vmas)
  {
    hide Entry, Present, FrameOf, LowFlags, SpaceOk, SpaceKept, UpperRights, RightsOf;
    if SpaceOk(m0, t0, kroot, src, vmas) {
      ExactStays(m0, t0, ma, ta, kroot, src, vmas);
      AreasInside(m0, t0, kroot, src, vmas);
      forall k | 0 <= k < |vmas| ensures AreaCopied(m0, p0, m1, src, dst, vmas[k].start, vmas[k].end) {
        assert AreaCopied(ma, pa, m1, src, dst, vmas[k].start, vmas[k].end);
        forall v: nat | vmas[k].start <= v < vmas[k].end ensures PageCopied(m0, p0, m1, src, dst, v) {
          KeptAt(m0, ma, src, v);
          assert PageCopied(ma, pa, m1, src, dst, v);
        }
      }
    }
  }

  lemma KeptAt(m0: Memory, m1: Memory, g: nat, v: nat)
    requires SpaceKept(m0, m1, g) && v < USER_LIMIT
    ensures PageKept(m0, m1, g, v)
  {
    hide Entry, Present, FrameOf, UpperRights, RightsOf;
  }

  lemma AreasInside(m: Memory, tab: Tables, kroot: nat, g: nat, vmas: seq<Vma>)
    requires SpaceOk(m, tab, kroot, g, vmas)
    ensures forall k :: 0 <= k < |vmas| ==> vmas[k].start < vmas[k].end <= USER_LIMIT
  {
  }

  // They stay while the child is left alone.
  lemma {:induction false} ForkOn(m0: Memory, t0: Tables, p0: Pages, m1: Memory, t1: Tables, m2: Memory, t2: Tables,
                                  kroot: nat, src: nat, dst: nat, vmas: seq<Vma>)
    requires ForkEffect(m0, t0, p0, m1, t1, kroot, src, dst, vmas) && SpaceKept(m1, m2, dst) && IsRoot(t2, dst)
    ensures ForkEffect(m0, t0, p0, m2, t2, kroot, src, dst, vmas)
  {
    hide Entry, Present, FrameOf, LowFlags, SpaceOk, SpaceKept, UpperRights, RightsOf;
    if SpaceOk(m0, t0, kroot, src, vmas) {
      ExactStays(m1, t1, m2, t2, kroot, dst, vmas);
      AreasInside(m0, t0, kroot, src, vmas);
      forall k | 0 <= k < |vmas| ensures AreaCopied(m0, p0, m2, src, dst, vmas[k].start, vmas[k].end) {
        assert AreaCopied(m0, p0, m1, src, dst, vmas[k].start, vmas[k].end);
        forall v: nat | vmas[k].start <= v < vmas[k].end ensures PageCopied(m0, p0, m2, src, dst, v) {
          KeptAt(m1, m2, dst, v);
          assert PageCopied(m0, p0, m1, src, dst, v);
        }
      }
    }
  }

  // What is kept of a longer list.
  lemma PrefixKept(kroot: nat, sv: seq<SpaceView>, sv': seq<SpaceView>, skip: int, m0: Memory, m1: Memory)
    requires |sv| < |sv'| && sv'[..|sv|] == sv && OthersKept(kroot, sv', skip, m0, m1)
    ensures skip < 0 || skip == |sv| ==> OthersKept(kroot, sv, -1, m0, m1)
    ensures skip < 0 ==> SpaceKept(m0, m1, sv'[|sv|].root)
  {
    hide SpaceKept, KernelKept;
    if skip < 0 || skip == |sv| {
      forall i | 0 <= i < |sv| ensures SpaceKept(m0, m1, sv[i].root) {
        assert sv'[i] == sv[i];
      }
    }
  }

  lemma OneOther(kroot: nat, sv: seq<SpaceView>, skip: int, m0: Memory, m1: Memory, i: nat)
    requires OthersKept(kroot, sv, skip, m0, m1) && i < |sv| && i != skip
    ensures SpaceKept(m0, m1, sv[i].root)
  {
    hide SpaceKept, KernelKept;
  }

  lemma OneKept(sv: seq<SpaceView>, skip: int, m0: Memory, m1: Memory, i: nat)
    requires SpacesKept(sv, skip, m0, m1) && i < |sv| && i != skip
    ensures SpaceKept(m0, m1, sv[i].root)
  {
  }
}
