/** mm_copy: the child's address space is a deep copy of the parent's (kernel/src/mm/vmm.c:107-143). */
module Fork {
  import opened Common
  import opened Pte
  import Pmm
  import opened PageTable
  import opened Machine
  import opened MapPages
  import opened Confine
  import opened Teardown
  import opened Heap
  import opened HeapSpec
  import HeapRuns
  import opened HeapUse
  import IntrusiveList
  import opened Vmm

  // The child's page v holds what the parent's page v held at the start, with the same flags, in
  // a frame that was nobody's page then.
  predicate PageCopied(m0: Memory, p0: Pages, m1: Memory, src: nat, dst: nat, v: nat) {
    var e, e' := Entry(m0, src, v), Entry(m1, dst, v);
    && Present(e) && Present(e') && LowFlags(e') == LowFlags(e)
    && FrameOf(e') !in p0 && FrameOf(e) < |m0| && FrameOf(e') < |m1| && m1[FrameOf(e')] == m0[FrameOf(e)]
  }

  ghost predicate AreaCopied(m0: Memory, p0: Pages, m1: Memory, src: nat, dst: nat, lo: nat, hi: nat) {
    forall v: nat {:trigger PageCopied(m0, p0, m1, src, dst, v)} :: lo <= v < hi ==> PageCopied(m0, p0, m1, src, dst, v)
  }

  ghost predicate AreasCopied(m0: Memory, p0: Pages, m1: Memory, src: nat, dst: nat, vmas: seq<Vma>) {
    forall k :: 0 <= k < |vmas| ==> AreaCopied(m0, p0, m1, src, dst, vmas[k].start, vmas[k].end)
  }

  // The user entries of a space are 0 or present.
  ghost predicate Settled(mem: Memory, root: nat) {
    forall v: nat {:trigger Entry(mem, root, v)} :: v < USER_LIMIT ==>
        Present(Entry(mem, root, v))
        || Entry(mem, root, v) == 0
  }

  // A page is mapped now if and only if it was, and with the same rights.
  predicate MappedAlike(m1: Memory, m2: Memory, root: nat, v: nat) {
    && (Present(Entry(m2, root, v)) <==> Present(Entry(m1, root, v)))
    && (Entry(m1, root, v) == 0 ==> Entry(m2, root, v) == 0)
    && UpperRights(m2, root, v) == UpperRights(m1, root, v)
    && RightsOf(Entry(m2, root, v)) == RightsOf(Entry(m1, root, v))
  }

  ghost predicate SameMapped(m1: Memory, m2: Memory, root: nat) {
    forall v: nat {:trigger Entry(m2, root, v)} :: v < USER_LIMIT ==> MappedAlike(m1, m2, root, v)
  }

  // Where both spaces have a page, its entries allow the same.
  ghost predicate SameAsked(m0: Memory, src: nat, m1: Memory, dst: nat, lo: nat, hi: nat) {
    forall v: nat {:trigger Entry(m1, dst, v)} ::
      (lo <= v < hi && Present(Entry(m0, src, v)) && Present(Entry(m1, dst, v))) ==>
        RightsOf(Entry(m1, dst, v)) == RightsOf(Entry(m0, src, v))
  }

  // ---- Copying one page keeps the copies made so far ----

  lemma {:induction false} CopyKeepsCopied(m0: Memory, p0: Pages, m1: Memory, m2: Memory, tab: Tables, pages: Pages,
                                           kroot: nat, src: nat, dst: nat, v: nat, f: nat, u: nat)
    requires PageCopied(m0, p0, m1, src, dst, u) && u != v && u < USER_LIMIT
    requires CopyStep(m1, m2, tab, kroot, dst, v, f) && f in pages && pages[f] == PageInfo(dst, v)
    requires PagesWf(m1, tab, pages, kroot) && IsRoot(tab, dst) && dst != kroot
    requires forall g :: g in pages ==> g !in tab
    ensures PageCopied(m0, p0, m2, src, dst, u)
  {
    hide Entry, FrameOf, UpperRights, RightsOf;
    assert Entry(m2, dst, u) == Entry(m1, dst, u);
    TargetHeld(m1, tab, pages, kroot, dst, u);
  }

  lemma {:induction false} CopyKeepsAreas(m0: Memory, p0: Pages, m1: Memory, m2: Memory, tab: Tables, pages: Pages,
                                          kroot: nat, src: nat, dst: nat, v: nat, f: nat, lo: nat, hi: nat)
    requires CopyStep(m1, m2, tab, kroot, dst, v, f) && f in pages && pages[f] == PageInfo(dst, v)
    requires PagesWf(m1, tab, pages, kroot) && IsRoot(tab, dst) && dst != kroot
    requires forall g :: g in pages ==> g !in tab
    requires hi <= USER_LIMIT && !(lo <= v < hi)
    requires AreaCopied(m0, p0, m1, src, dst, lo, hi)
    ensures AreaCopied(m0, p0, m2, src, dst, lo, hi)
  {
    hide PageCopied, PagesWf, CopyStep;
    forall u: nat | lo <= u < hi ensures PageCopied(m0, p0, m2, src, dst, u) {
      assert PageCopied(m0, p0, m1, src, dst, u);
      CopyKeepsCopied(m0, p0, m1, m2, tab, pages, kroot, src, dst, v, f, u);
    }
  }

  // ---- Mapping the next area keeps the copies made so far ----

  lemma {:induction false} MappingKeepsCopied(m0: Memory, p0: Pages, m1: Memory, t1: Tables, p1: Pages, m2: Memory,
                                              t2: Tables, p2: Pages, kroot: nat, src: nat, dst: nat, start: nat, n: nat,
                                              lo: nat, hi: nat)
    requires Confined(m1, t1, p1, m2, t2, p2, kroot, dst) && KeptOutside(m1, m2, dst, start, n)
    requires PagesWf(m1, t1, p1, kroot) && IsRoot(t1, dst) && dst != kroot
    requires forall g :: g in p2 ==> g !in t2
    requires hi <= USER_LIMIT && (hi <= start || start + n <= lo)
    requires AreaCopied(m0, p0, m1, src, dst, lo, hi)
    ensures AreaCopied(m0, p0, m2, src, dst, lo, hi)
  {
    hide Entry, FrameOf, PagesWf;
    forall u: nat | lo <= u < hi ensures PageCopied(m0, p0, m2, src, dst, u) {
      assert PageCopied(m0, p0, m1, src, dst, u);
      assert Entry(m2, dst, u) == Entry(m1, dst, u);
      TargetHeld(m1, t1, p1, kroot, dst, u);
      ConfinedPage(m1, t1, p1, m2, t2, p2, kroot, dst, FrameOf(Entry(m1, dst, u)));
    }
  }

  // ---- One area ----

  ghost predicate BothMapped(m0: Memory, src: nat, m1: Memory, dst: nat, lo: nat, hi: nat) {
    forall v: nat {:trigger Entry(m1, dst, v)} :: lo <= v < hi ==>
        Present(Entry(m0, src, v))
        && Present(Entry(m1, dst, v))
  }

  // Every page of the area has its frame in the child.
  ghost predicate ChildMapped(m1: Memory, dst: nat, lo: nat, hi: nat) {
    forall v: nat {:trigger Entry(m1, dst, v)} :: lo <= v < hi ==> Present(Entry(m1, dst, v))
  }

  lemma ChildMappedAt(m1: Memory, m2: Memory, dst: nat, lo: nat, hi: nat, v: nat)
    requires SameMapped(m1, m2, dst) && lo <= v < hi <= USER_LIMIT
    ensures ChildMapped(m1, dst, lo, hi) ==> Present(Entry(m2, dst, v))
  {
    hide Entry, UpperRights, RightsOf;
    assert ChildMapped(m1, dst, lo, hi) ==> Present(Entry(m1, dst, v));
  }

  // Copies outside [lo, hi) are not disturbed.
  ghost predicate OtherAreasKept(m0: Memory, p0: Pages, m1: Memory, m2: Memory, src: nat, dst: nat, lo: nat, hi: nat) {
    forall a: nat, b: nat {:trigger AreaCopied(m0, p0, m2, src, dst, a, b)} ::
      b <= USER_LIMIT && (b <= lo || hi <= a) && AreaCopied(m0, p0, m1, src, dst, a, b) ==>
        AreaCopied(m0, p0, m2, src, dst, a, b)
  }

  // The page just copied.
  lemma {:induction false} CopiedHere(m0: Memory, t0: Tables, p0: Pages, m1: Memory, m2: Memory, tab: Tables,
                                      pages: Pages, kroot: nat, src: nat, dst: nat, v: nat)
    requires Confined(m0, t0, p0, m1, tab, pages, kroot, dst) && PagesWf(m0, t0, p0, kroot) && IsRoot(t0, src)
    requires src != dst && src != kroot && v < USER_LIMIT && Present(Entry(m1, src, v)) && Present(Entry(m1, dst, v))
    requires var f := FrameOf(Entry(m1, dst, v));
             f !in p0 && f < |m2| && FrameOf(Entry(m1, src, v)) < |m1|
             && Entry(m2, dst, v) == MakeEntry(f, LowFlags(Entry(m1, src, v)))
                && m2[f] == m1[FrameOf(Entry(m1, src, v))]
    requires forall g :: g in pages ==> g !in tab
    ensures PageCopied(m0, p0, m2, src, dst, v)
  {
    hide Entry, FrameOf, LowFlags, MakeEntry, Present, PagesWf;
    ConfinedEntry(m0, t0, p0, m1, tab, pages, kroot, dst, src, v);
    TargetHeld(m0, t0, p0, kroot, src, v);
    ConfinedPage(m0, t0, p0, m1, tab, pages, kroot, dst, FrameOf(Entry(m0, src, v)));
    LowFlagsPresent(Entry(m1, src, v), FrameOf(Entry(m1, dst, v)));
    EntryRoundTrip(FrameOf(Entry(m1, dst, v)), LowFlags(Entry(m1, src, v)));
  }

  lemma {:induction false} CopyKeepsShape(m1: Memory, m2: Memory, tab: Tables, kroot: nat, dst: nat, v: nat, f: nat)
    requires CopyStep(m1, m2, tab, kroot, dst, v, f) && IsRoot(tab, dst) && v < USER_LIMIT
    requires Present(Entry(m1, dst, v)) && Present(Entry(m2, dst, v)) && Settled(m1, dst)
    requires RightsOf(Entry(m2, dst, v)) == RightsOf(Entry(m1, dst, v))
    ensures SameMapped(m1, m2, dst) && Settled(m2, dst)
  {
    hide Entry, UpperRights, RightsOf;
    AllowsAll(m1, m2, tab, ALL_RIGHTS);
    forall u: nat | u < USER_LIMIT
      ensures MappedAlike(m1, m2, dst, u)
      ensures Present(Entry(m2, dst, u)) || Entry(m2, dst, u) == 0
    {
      assert u != v ==> Entry(m2, dst, u) == Entry(m1, dst, u);
      assert Present(Entry(m1, dst, u)) || Entry(m1, dst, u) == 0;
    }
  }

  lemma SameMappedTrans(m0: Memory, m1: Memory, m2: Memory, root: nat)
    requires SameMapped(m0, m1, root) && SameMapped(m1, m2, root)
    ensures SameMapped(m0, m2, root)
  {
    hide Entry, UpperRights, RightsOf;
    forall v: nat | v < USER_LIMIT ensures MappedAlike(m0, m2, root, v) {
      assert MappedAlike(m0, m1, root, v) && MappedAlike(m1, m2, root, v);
    }
  }

  lemma {:induction false} OthersKeptStep(m0: Memory, p0: Pages, mOld: Memory, m1: Memory, m2: Memory, tab: Tables,
                                          pages: Pages, kroot: nat, src: nat, dst: nat, lo: nat, hi: nat, v: nat,
                                          f: nat)
    requires OtherAreasKept(m0, p0, mOld, m1, src, dst, lo, hi) && lo <= v < hi
    requires CopyStep(m1, m2, tab, kroot, dst, v, f) && f in pages && pages[f] == PageInfo(dst, v)
    requires PagesWf(m1, tab, pages, kroot) && IsRoot(tab, dst) && dst != kroot
    requires forall g :: g in pages ==> g !in tab
    ensures OtherAreasKept(m0, p0, mOld, m2, src, dst, lo, hi)
  {
    hide AreaCopied, CopyStep, PagesWf;
    forall a: nat, b: nat | b <= USER_LIMIT && (b <= lo || hi <= a) && AreaCopied(m0, p0, mOld, src, dst, a, b)
      ensures AreaCopied(m0, p0, m2, src, dst, a, b)
    {
      assert AreaCopied(m0, p0, m1, src, dst, a, b);
      CopyKeepsAreas(m0, p0, m1, m2, tab, pages, kroot, src, dst, v, f, a, b);
    }
  }

  lemma {:induction false} AreaGrows(m0: Memory, p0: Pages, m2: Memory, src: nat, dst: nat, lo: nat, v: nat)
    requires AreaCopied(m0, p0, m2, src, dst, lo, v) && PageCopied(m0, p0, m2, src, dst, v)
    ensures AreaCopied(m0, p0, m2, src, dst, lo, v + 1)
  {
  }

  lemma {:induction false} CopyStart(m0: Memory, p0: Pages, m1: Memory, src: nat, dst: nat, lo: nat, hi: nat)
    ensures OtherAreasKept(m0, p0, m1, m1, src, dst, lo, hi) && SameMapped(m1, m1, dst)
    ensures AreaCopied(m0, p0, m1, src, dst, lo, lo)
  {
    hide Entry, UpperRights, RightsOf;
    forall v: nat | v < USER_LIMIT ensures MappedAlike(m1, m1, dst, v) {
    }
  }

  lemma BothMappedAt(m0: Memory, src: nat, mOld: Memory, m1: Memory, dst: nat, lo: nat, hi: nat, v: nat)
    requires BothMapped(m0, src, mOld, dst, lo, hi) && SameMapped(mOld, m1, dst) && lo <= v < hi <= USER_LIMIT
    ensures Present(Entry(m0, src, v)) && Present(Entry(m1, dst, v))
  {
    hide Entry, UpperRights, RightsOf;
    assert Present(Entry(mOld, dst, v));
  }

  lemma SameAskedAt(m0: Memory, src: nat, mOld: Memory, m1: Memory, dst: nat, lo: nat, hi: nat, v: nat)
    requires SameAsked(m0, src, mOld, dst, lo, hi) && SameMapped(mOld, m1, dst) && lo <= v < hi <= USER_LIMIT
    requires Entry(m1, src, v) == Entry(m0, src, v) && Present(Entry(m1, src, v)) && Present(Entry(m1, dst, v))
    ensures RightsOf(Entry(m1, dst, v)) == RightsOf(Entry(m1, src, v))
  {
    hide Entry, UpperRights, RightsOf;
    assert MappedAlike(mOld, m1, dst, v);
  }

  // The page loop of mm_copy over one area; false when a page of the child has no frame.
  method CopyArea(k: KernelHeap, dst: nat, src: nat, lo: nat, hi: nat, ghost m0: Memory, ghost t0: Tables,
                  ghost p0: Pages) returns (ok: bool)
    requires k.Valid() && IsRoot(k.m.tab, dst) && IsRoot(k.m.tab, src) && dst != k.m.kroot && src != k.m.kroot
              && dst != src
    requires lo <= hi <= USER_LIMIT && Settled(k.m.mem, dst)
    requires IsRoot(t0, src) && PagesWf(m0, t0, p0, k.m.kroot)
    requires Confined(m0, t0, p0, k.m.mem, k.m.tab, k.m.pages, k.m.kroot, dst)
    requires forall f :: f in k.m.pages && k.m.pages[f].root == dst ==> f !in p0
    requires SameAsked(m0, src, k.m.mem, dst, lo, hi)
    modifies k.m`mem
    ensures ChildMapped(old(k.m.mem), dst, lo, hi) ==> ok
    ensures k.Valid() && Settled(k.m.mem, dst) && SameMapped(old(k.m.mem), k.m.mem, dst)
    ensures Confined(m0, t0, p0, k.m.mem, k.m.tab, k.m.pages, k.m.kroot, dst)
    ensures OtherAreasKept(m0, p0, old(k.m.mem), k.m.mem, src, dst, lo, hi)
    // when both sides have the whole area mapped, it is copied
    ensures BothMapped(m0, src, old(k.m.mem), dst, lo, hi) ==> ok && AreaCopied(m0, p0, k.m.mem, src, dst, lo, hi)
  {
    hide TableWf, PagesWf, Entry, HeapSpec.Tiles, View, IntrusiveList.IsRing, Up, Idx, Pmm.CountFree, Pmm.BitsOf,
      WindowMapped, TableAt, FrameOf, CopyStep, SlotReady, Confined, AreaCopied, PageCopied, Settled, SameMapped,
      OtherAreasKept, BothMapped, ChildMapped, Present, SameAsked, RightsOf;
    ghost var mOld, tab, pages, kroot := k.m.mem, k.m.tab, k.m.pages, k.m.kroot;
    CopyStart(m0, p0, mOld, src, dst, lo, hi);
    var v := lo;
    while v < hi
      invariant lo <= v <= hi && k.Valid() && Settled(k.m.mem, dst) && SameMapped(mOld, k.m.mem, dst)
      invariant Confined(m0, t0, p0, k.m.mem, tab, pages, kroot, dst)
      invariant OtherAreasKept(m0, p0, mOld, k.m.mem, src, dst, lo, hi)
      invariant BothMapped(m0, src, mOld, dst, lo, hi) ==> AreaCopied(m0, p0, k.m.mem, src, dst, lo, v)
    {
      ghost var m1 := k.m.mem;
      SettledAt(m1, dst, v);
      ChildMappedAt(mOld, m1, dst, lo, hi, v);
      ZeroIsAbsent();
      if BothMapped(m0, src, mOld, dst, lo, hi) {
        BothMappedAt(m0, src, mOld, m1, dst, lo, hi, v);
        ConfinedEntry(m0, t0, p0, m1, tab, pages, kroot, dst, src, v);
      }
      var c := CopyPage(k, dst, src, v);
      if c == NoTarget {
        return false;
      }
      if c == Copied {
        ConfinedEntry(m0, t0, p0, m1, tab, pages, kroot, dst, src, v);
        SameAskedAt(m0, src, mOld, m1, dst, lo, hi, v);
        CopyDone(k, m0, t0, p0, mOld, m1, tab, pages, kroot, src, dst, lo, hi, v);
      }
      v := v + 1;
    }
    return true;
  }

  lemma SettledAt(mem: Memory, root: nat, v: nat)
    requires Settled(mem, root) && v < USER_LIMIT
    ensures Present(Entry(mem, root, v)) || Entry(mem, root, v) == 0
  {
  }

  // Everything the loop keeps, after a page was copied.
  lemma {:induction false} CopyDone(k: KernelHeap, m0: Memory, t0: Tables, p0: Pages, mOld: Memory, m1: Memory,
                                    tab: Tables, pages: Pages, kroot: nat, src: nat, dst: nat, lo: nat, hi: nat, v: nat)
    requires k.Valid() && tab == k.m.tab && pages == k.m.pages && kroot == k.m.kroot
    requires IsRoot(tab, dst) && dst != kroot && src != kroot && dst != src && lo <= v < hi <= USER_LIMIT
    requires IsRoot(t0, src) && PagesWf(m0, t0, p0, kroot) && PagesWf(m1, tab, pages, kroot)
    requires Settled(m1, dst) && SameMapped(mOld, m1, dst) && Confined(m0, t0, p0, m1, tab, pages, kroot, dst)
    requires OtherAreasKept(m0, p0, mOld, m1, src, dst, lo, hi)
    requires forall f :: f in pages && pages[f].root == dst ==> f !in p0
    requires var e, e0 := Entry(m1, src, v), Entry(m1, dst, v);
             var f := FrameOf(e0);
             && Present(e) && Present(e0) && f in pages && pages[f] == PageInfo(dst, v)
             && f < |k.m.mem| && FrameOf(e) < |m1|
             && Entry(k.m.mem, dst, v) == MakeEntry(f, LowFlags(e)) && k.m.mem[f] == m1[FrameOf(e)]
             && CopyStep(m1, k.m.mem, tab, kroot, dst, v, f)
             && RightsOf(e0) == RightsOf(e)
    ensures Settled(k.m.mem, dst) && SameMapped(mOld, k.m.mem, dst)
              && Confined(m0, t0, p0, k.m.mem, tab, pages, kroot, dst)
    ensures OtherAreasKept(m0, p0, mOld, k.m.mem, src, dst, lo, hi)
    ensures AreaCopied(m0, p0, m1, src, dst, lo, v) ==> AreaCopied(m0, p0, k.m.mem, src, dst, lo, v + 1)
  {
    hide TableWf, PagesWf, Entry, HeapSpec.Tiles, View, IntrusiveList.IsRing, Up, Idx, Pmm.CountFree, Pmm.BitsOf,
      WindowMapped, TableAt, CopyStep, SlotReady, Confined, AreaCopied, PageCopied, Settled, SameMapped,
      OtherAreasKept, RightsOf;
    var m2, f := k.m.mem, FrameOf(Entry(m1, dst, v));
    k.m.KernelIsRoot();
    LowFlagsPresent(Entry(m1, src, v), f);
    LowFlagsRights(f, Entry(m1, src, v));
    CopyKeepsShape(m1, m2, tab, kroot, dst, v, f);
    SameMappedTrans(mOld, m1, m2, dst);
    ConfinedCopy(m0, t0, p0, m1, tab, pages, m2, kroot, dst, v, f);
    OthersKeptStep(m0, p0, mOld, m1, m2, tab, pages, kroot, src, dst, lo, hi, v, f);
    CopiedHere(m0, t0, p0, m1, m2, tab, pages, kroot, src, dst, v);
    if AreaCopied(m0, p0, m1, src, dst, lo, v) {
      CopyKeepsAreas(m0, p0, m1, m2, tab, pages, kroot, src, dst, v, f, lo, v);
      AreaGrows(m0, p0, m2, src, dst, lo, v);
    }
  }

  // ---- The whole space ----

  // Frames that copying all areas may consume.
  function CopyBound(vmas: seq<Vma>): nat {
    if vmas == [] then 0
    else
      var a := vmas[|vmas| - 1];
      CopyBound(vmas[..|vmas| - 1]) + if a.start < a.end then NeedBound(a.end - a.start) else 0
  }

  lemma {:induction false} CopyBoundPrefix(vmas: seq<Vma>, i: nat)
    requires i <= |vmas|
    ensures CopyBound(vmas[..i]) <= CopyBound(vmas)
  {
    if i < |vmas| {
      CopyBoundPrefix(vmas[..|vmas| - 1], i);
      assert vmas[..|vmas| - 1][..i] == vmas[..i];
    } else {
      assert vmas[..i] == vmas;
    }
  }

  lemma CopyBoundStep(vmas: seq<Vma>, i: nat)
    requires i < |vmas| && vmas[i].start < vmas[i].end
    ensures CopyBound(vmas[..i + 1]) == CopyBound(vmas[..i]) + NeedBound(vmas[i].end - vmas[i].start)
  {
    assert vmas[..i + 1][..i] == vmas[..i];
  }

  lemma PageBytes(start: nat, n: nat)
    ensures FirstPage(start * PAGE_SIZE) == start && PageSpan(start * PAGE_SIZE, n * PAGE_SIZE) == n
  {
  }

  // The areas from i on are still unmapped in the child.
  ghost predicate AheadUnmapped(mem: Memory, dst: nat, vmas: seq<Vma>, i: nat) {
    forall j :: i <= j < |vmas| && vmas[j].start <= vmas[j].end ==>
        RangeUnmapped(mem, dst, vmas[j].start, vmas[j].end - vmas[j].start)
  }

  ghost predicate ChildPagesNew(p0: Pages, pages: Pages, dst: nat) {
    forall f :: f in pages && pages[f].root == dst ==> f !in p0
  }

  lemma AheadAfterMapping(m1: Memory, m2: Memory, dst: nat, vmas: seq<Vma>, i: nat)
    requires VmasOk(vmas) && i < |vmas| && AheadUnmapped(m1, dst, vmas, i)
    requires KeptOutside(m1, m2, dst, vmas[i].start, vmas[i].end - vmas[i].start)
    ensures AheadUnmapped(m2, dst, vmas, i + 1)
  {
    hide Entry, UpperRights, RightsOf;
    forall j | i + 1 <= j < |vmas| ensures RangeUnmapped(m2, dst, vmas[j].start, vmas[j].end - vmas[j].start) {
      assert RangeUnmapped(m1, dst, vmas[j].start, vmas[j].end - vmas[j].start);
      forall u: nat | vmas[j].start <= u < vmas[j].end ensures Entry(m2, dst, u) == 0 {
        assert Entry(m1, dst, u) == 0;
      }
    }
  }

  lemma AheadAfterCopy(m1: Memory, m2: Memory, dst: nat, vmas: seq<Vma>, i: nat)
    requires VmasOk(vmas) && AheadUnmapped(m1, dst, vmas, i) && SameMapped(m1, m2, dst)
    ensures AheadUnmapped(m2, dst, vmas, i)
  {
    hide Entry, UpperRights, RightsOf;
    forall j | i <= j < |vmas| ensures RangeUnmapped(m2, dst, vmas[j].start, vmas[j].end - vmas[j].start) {
      assert RangeUnmapped(m1, dst, vmas[j].start, vmas[j].end - vmas[j].start);
      forall u: nat | vmas[j].start <= u < vmas[j].end ensures Entry(m2, dst, u) == 0 {
        assert Entry(m1, dst, u) == 0;
      }
    }
  }

  lemma SettledAfterMapping(m1: Memory, m2: Memory, dst: nat, start: nat, n: nat, fl: Rights)
    requires Settled(m1, dst) && KeptOutside(m1, m2, dst, start, n) && MappedOrZero(m2, dst, start, n, fl)
    ensures Settled(m2, dst)
  {
    hide Entry, UpperRights, RightsOf;
    forall v: nat | v < USER_LIMIT ensures Present(Entry(m2, dst, v)) || Entry(m2, dst, v) == 0 {
      assert Present(Entry(m1, dst, v)) || Entry(m1, dst, v) == 0;
    }
  }

  lemma {:induction false} SpaceOkAfterCopy(m1: Memory, m2: Memory, tab: Tables, kroot: nat, root: nat, vmas: seq<Vma>)
    requires SpaceOk(m1, tab, kroot, root, vmas) && SameMapped(m1, m2, root)
    ensures SpaceOk(m2, tab, kroot, root, vmas)
  {
    hide Entry, UpperRights, RightsOf;
    forall v: nat | v < USER_LIMIT ensures MappedIffListed(m2, root, vmas, v) {
      assert MappedIffListed(m1, root, vmas, v) && MappedAlike(m1, m2, root, v);
    }
  }

  lemma {:induction false} CoveredAfterCopy(m1: Memory, m2: Memory, tab: Tables, kroot: nat, root: nat, vmas: seq<Vma>)
    requires Covered(m1, tab, kroot, root, vmas) && SameMapped(m1, m2, root)
    ensures Covered(m2, tab, kroot, root, vmas)
  {
    hide Entry, UpperRights, RightsOf;
    forall v: nat | v < USER_LIMIT ensures CoveredAt(m2, root, vmas, v) {
      assert CoveredAt(m1, root, vmas, v) && MappedAlike(m1, m2, root, v);
    }
  }

  // Parent and child have area i with the rights it asks for.
  lemma {:induction false} AlikeInArea(m0: Memory, t0: Tables, kroot: nat, src: nat, vmas: seq<Vma>, m2: Memory,
                                       dst: nat, i: nat)
    requires Covered(m0, t0, kroot, src, vmas) && i < |vmas|
    requires MappedOrZero(m2, dst, vmas[i].start, vmas[i].end - vmas[i].start, VmaRights(vmas[i].flags))
    ensures SameAsked(m0, src, m2, dst, vmas[i].start, vmas[i].end)
  {
    hide Entry, UpperRights, RightsOf;
    ZeroIsAbsent();
    forall v: nat | vmas[i].start <= v < vmas[i].end && Present(Entry(m0, src, v)) && Present(Entry(m2, dst, v))
      ensures RightsOf(Entry(m2, dst, v)) == RightsOf(Entry(m0, src, v))
    {
      assert CoveredAt(m0, src, vmas, v) && Covers(vmas[i], v);
    }
  }

  lemma PrefixApart(vs: seq<Vma>, i: nat)
    requires VmasOk(vs) && i < |vs|
    ensures ApartFrom(vs[..i], vs[i].start, vs[i].end - vs[i].start)
    ensures vs[..i] + [Vma(vs[i].start, vs[i].start + (vs[i].end - vs[i].start), vs[i].flags)] == vs[..i + 1]
  {
    assert vs[i] == Vma(vs[i].start, vs[i].end, vs[i].flags);
  }

  lemma {:induction false} AreasAfterMapping(m0: Memory, p0: Pages, m1: Memory, t1: Tables, p1: Pages, m2: Memory,
                                             t2: Tables, p2: Pages, kroot: nat, src: nat, dst: nat, vmas: seq<Vma>,
                                             i: nat)
    requires VmasOk(vmas) && i < |vmas| && AreasCopied(m0, p0, m1, src, dst, vmas[..i])
    requires Confined(m1, t1, p1, m2, t2, p2, kroot, dst)
    requires KeptOutside(m1, m2, dst, vmas[i].start, vmas[i].end - vmas[i].start)
    requires PagesWf(m1, t1, p1, kroot) && IsRoot(t1, dst) && dst != kroot
    requires forall g :: g in p2 ==> g !in t2
    ensures AreasCopied(m0, p0, m2, src, dst, vmas[..i])
  {
    hide AreaCopied, Confined, KeptOutside, PagesWf;
    forall j | 0 <= j < i ensures AreaCopied(m0, p0, m2, src, dst, vmas[j].start, vmas[j].end) {
      assert AreaCopied(m0, p0, m1, src, dst, vmas[..i][j].start, vmas[..i][j].end);
      MappingKeepsCopied(m0, p0, m1, t1, p1, m2, t2, p2, kroot, src, dst, vmas[i].start, vmas[i].end - vmas[i].start,
                         vmas[j].start, vmas[j].end);
    }
  }

  lemma {:induction false} AreasAfterCopy(m0: Memory, p0: Pages, m1: Memory, m2: Memory, src: nat, dst: nat,
                                          vmas: seq<Vma>, i: nat)
    requires VmasOk(vmas) && i < |vmas| && AreasCopied(m0, p0, m1, src, dst, vmas[..i])
    requires OtherAreasKept(m0, p0, m1, m2, src, dst, vmas[i].start, vmas[i].end)
    requires AreaCopied(m0, p0, m2, src, dst, vmas[i].start, vmas[i].end)
    ensures AreasCopied(m0, p0, m2, src, dst, vmas[..i + 1])
  {
    hide AreaCopied;
    forall j | 0 <= j < i + 1 ensures AreaCopied(m0, p0, m2, src, dst, vmas[j].start, vmas[j].end) {
      if j < i {
        assert AreaCopied(m0, p0, m1, src, dst, vmas[..i][j].start, vmas[..i][j].end);
      }
    }
  }

  lemma {:induction false} AreaBothMapped(m0: Memory, t0: Tables, kroot: nat, src: nat, vmas: seq<Vma>, m1: Memory,
                                          p1: Pages, dst: nat, flags: nat, i: nat)
    requires SpaceOk(m0, t0, kroot, src, vmas) && i < |vmas| && flags % 2 == 1 && flags < PAGE_SIZE
    requires RangeMapped(m1, p1, dst, flags, vmas[i].start, vmas[i].end - vmas[i].start)
    ensures BothMapped(m0, src, m1, dst, vmas[i].start, vmas[i].end)
  {
    hide Entry, UpperRights, RightsOf;
    RangeIsMapped(m1, p1, dst, flags, vmas[i].start, vmas[i].end);
    forall v: nat | vmas[i].start <= v < vmas[i].end ensures Present(Entry(m0, src, v)) && Present(Entry(m1, dst, v)) {
      ListedIsMapped(m0, t0, kroot, src, vmas, i, v);
    }
  }

  lemma {:induction false} RangeIsMapped(m1: Memory, p1: Pages, dst: nat, flags: nat, start: nat, end: nat)
    requires start <= end && flags % 2 == 1 && flags < PAGE_SIZE && RangeMapped(m1, p1, dst, flags, start, end - start)
    ensures ChildMapped(m1, dst, start, end)
  {
    hide Entry, UpperRights, RightsOf;
    forall v: nat | start <= v < end ensures Present(Entry(m1, dst, v)) {
      assert MappedNew(m1, p1, dst, flags, v);
      EntryRoundTrip(FrameOf(Entry(m1, dst, v)), flags);
    }
  }

  lemma {:induction false} ChildPagesStayNew(t0: Tables, p0: Pages, t1: Tables, p1: Pages, t2: Tables, p2: Pages,
                                             kroot: nat, dst: nat)
    requires ChildPagesNew(p0, p1, dst) && OwnersConfined(t0, p0, t1, p1, kroot, dst)
              && OwnersConfined(t1, p1, t2, p2, kroot, dst)
    ensures ChildPagesNew(p0, p2, dst)
  {
  }

  // Before the first area.
  lemma {:induction false} CopyBegins(m0: Memory, t0: Tables, p0: Pages, kroot: nat, src: nat, dst: nat, vmas: seq<Vma>)
    requires SpaceOk(m0, t0, kroot, dst, []) && VmasOk(vmas) && PagesWf(m0, t0, p0, kroot)
    ensures Confined(m0, t0, p0, m0, t0, p0, kroot, dst) && Settled(m0, dst) && AheadUnmapped(m0, dst, vmas, 0)
    ensures ChildPagesNew(p0, p0, dst) && AreasCopied(m0, p0, m0, src, dst, vmas[..0])
  {
    hide Entry, UpperRights, RightsOf;
    ConfinedRefl(m0, t0, p0, kroot, dst);
    forall v: nat | v < USER_LIMIT ensures Entry(m0, dst, v) == 0 {
      assert MappedIffListed(m0, dst, [], v);
    }
    forall f | f in p0 && p0[f].root == dst ensures false {
      HeldPage(m0, t0, p0, kroot, f);
    }
  }

  lemma {:induction false} SpaceParts(mem: Memory, tab: Tables, kroot: nat, root: nat, vmas: seq<Vma>)
    requires Covered(mem, tab, kroot, root, vmas)
    ensures IsRoot(tab, root) && root != kroot && VmasOk(vmas)
  {
  }

  lemma AreaAt(vmas: seq<Vma>, i: nat)
    requires VmasOk(vmas) && i < |vmas|
    ensures vmas[i].start < vmas[i].end <= USER_LIMIT
    ensures (vmas[i].end - vmas[i].start) * PAGE_SIZE > 0
    ensures vmas[i].start * PAGE_SIZE + (vmas[i].end - vmas[i].start) * PAGE_SIZE <= USER_LIMIT * PAGE_SIZE
  {
  }

  lemma AheadAt(mem: Memory, dst: nat, vmas: seq<Vma>, i: nat)
    requires AheadUnmapped(mem, dst, vmas, i) && i < |vmas| && vmas[i].start <= vmas[i].end
    ensures RangeUnmapped(mem, dst, vmas[i].start, vmas[i].end - vmas[i].start)
  {
  }

  lemma {:induction false} ConfinedOwners(m0: Memory, t0: Tables, p0: Pages, m1: Memory, t1: Tables, p1: Pages,
                                          kroot: nat, r: nat)
    requires Confined(m0, t0, p0, m1, t1, p1, kroot, r)
    ensures OwnersConfined(t0, p0, t1, p1, kroot, r)
  {
  }

  // After i rounds: only the child and the heap have changed, the child has exactly the first i
  // areas, its pages are new, and the areas ahead are unmapped.
  ghost predicate Copying(m0: Memory, t0: Tables, p0: Pages, m: Memory, t: Tables, p: Pages, kroot: nat, src: nat,
                          dst: nat, vs: seq<Vma>, i: nat, areas: seq<Vma>) {
    && Confined(m0, t0, p0, m, t, p, kroot, dst) && IsRoot(t, dst) && IsRoot(t, src)
    && Settled(m, dst) && AheadUnmapped(m, dst, vs, i) && ChildPagesNew(p0, p, dst)
    && i <= |vs| && areas == vs[..i] && Covered(m, t, kroot, dst, areas)
  }

  // And, from an intact parent with no frame lost, the first i areas are copied.
  ghost predicate CopiedSoFar(m0: Memory, t0: Tables, p0: Pages, m: Memory, t: Tables, kroot: nat, src: nat, dst: nat,
                              vs: seq<Vma>, i: nat) {
    i <= |vs| && SpaceOk(m0, t0, kroot, src, vs) && SpaceOk(m, t, kroot, dst, vs[..i])
        && AreasCopied(m0, p0, m, src, dst, vs[..i])
  }

  // Mapping area i takes the round to its second half.
  lemma {:induction false} AreaListed(m0: Memory, t0: Tables, p0: Pages, m1: Memory, t1: Tables, p1: Pages, m2: Memory,
                                      t2: Tables, p2: Pages, kroot: nat, src: nat, dst: nat, vs: seq<Vma>, i: nat)
    requires VmasOk(vs) && i < |vs| && Copying(m0, t0, p0, m1, t1, p1, kroot, src, dst, vs, i, vs[..i])
    requires Confined(m1, t1, p1, m2, t2, p2, kroot, dst)
              && KeptOutside(m1, m2, dst, vs[i].start, vs[i].end - vs[i].start)
    requires MappedOrZero(m2, dst, vs[i].start, vs[i].end - vs[i].start, VmaRights(vs[i].flags))
    requires Covered(m2, t2, kroot, dst, vs[..i + 1])
    ensures Copying(m0, t0, p0, m2, t2, p2, kroot, src, dst, vs, i + 1, vs[..i + 1])
  {
    hide Confined, Settled, AheadUnmapped, ChildPagesNew, Covered, KeptOutside, MappedOrZero;
    ConfinedRoot(m1, t1, p1, m2, t2, p2, kroot, dst, dst);
    ConfinedRoot(m1, t1, p1, m2, t2, p2, kroot, dst, src);
    ConfinedTrans(m0, t0, p0, m1, t1, p1, m2, t2, p2, kroot, dst);
    ConfinedOwners(m0, t0, p0, m1, t1, p1, kroot, dst);
    ConfinedOwners(m1, t1, p1, m2, t2, p2, kroot, dst);
    ChildPagesStayNew(t0, p0, t1, p1, t2, p2, kroot, dst);
    SettledAfterMapping(m1, m2, dst, vs[i].start, vs[i].end - vs[i].start, VmaRights(vs[i].flags));
    AheadAfterMapping(m1, m2, dst, vs, i);
  }

  // Copying the pages keeps it.
  lemma {:induction false} CopyingGoesOn(m0: Memory, t0: Tables, p0: Pages, m2: Memory, m3: Memory, t: Tables, p: Pages,
                                         kroot: nat, src: nat, dst: nat, vs: seq<Vma>, i: nat)
    requires VmasOk(vs) && i <= |vs| && Copying(m0, t0, p0, m2, t, p, kroot, src, dst, vs, i, vs[..i])
    requires Confined(m0, t0, p0, m3, t, p, kroot, dst) && Settled(m3, dst) && SameMapped(m2, m3, dst)
    ensures Copying(m0, t0, p0, m3, t, p, kroot, src, dst, vs, i, vs[..i])
  {
    hide Confined, Settled, AheadUnmapped, ChildPagesNew, Covered, SameMapped;
    AheadAfterCopy(m2, m3, dst, vs, i);
    CoveredAfterCopy(m2, m3, t, kroot, dst, vs[..i]);
  }

  lemma {:induction false} CopyingParts(m0: Memory, t0: Tables, p0: Pages, m: Memory, t: Tables, p: Pages, kroot: nat,
                                        src: nat, dst: nat, vs: seq<Vma>, i: nat, areas: seq<Vma>)
    requires Copying(m0, t0, p0, m, t, p, kroot, src, dst, vs, i, areas)
    ensures Confined(m0, t0, p0, m, t, p, kroot, dst) && IsRoot(t, dst) && IsRoot(t, src) && dst != kroot
    ensures i <= |vs| && areas == vs[..i] && Covered(m, t, kroot, dst, areas)
    ensures Settled(m, dst) && AheadUnmapped(m, dst, vs, i)
    ensures forall f :: f in p && p[f].root == dst ==> f !in p0
  {
    hide Confined, Settled, AheadUnmapped;
  }

  // One round of the loop of mm_copy: map the area in the child, then copy its pages.
  method CopyNext(k: KernelHeap, dst: Mm, src: Mm, i: nat, ghost m0: Memory, ghost t0: Tables, ghost p0: Pages,
                  ghost clean: bool, ghost vs: seq<Vma>)
    returns (ok: Status, ghost more: nat, ghost mid: seq<Block>, ghost ps: seq<nat>)
    requires k.Valid() && dst != src && dst.root != src.root && src.vmas == vs && i < |vs|
    requires IsRoot(t0, src.root) && PagesWf(m0, t0, p0, k.m.kroot) && Covered(m0, t0, k.m.kroot, src.root, vs)
    requires Copying(m0, t0, p0, k.m.mem, k.m.tab, k.m.pages, k.m.kroot, src.root, dst.root, vs, i, dst.vmas)
    requires clean ==> CopiedSoFar(m0, t0, p0, k.m.mem, k.m.tab, k.m.kroot, src.root, dst.root, vs, i)
    modifies k`size, k`isFree, k`order, k`top, k.nodes, k.m`mem, k.m`tab, k.m`stray, k.m`failures, k.m`pages, k.m.pmm,
        k.m.pmm.bitmap
    modifies dst`vmas, dst`mapCount, dst`blocks
    ensures ok != Halted ==>
              k.Valid() && old(k.m.stray) <= k.m.stray && IsRoot(k.m.tab, dst.root)
              && dst.root != k.m.kroot
    ensures ok != Halted ==> Confined(m0, t0, p0, k.m.mem, k.m.tab, k.m.pages, k.m.kroot, dst.root)
    ensures ok == Halted ==> k.m.pmm.freePages == 0
    ensures Losses(old(k.m.stray), old(k.m.failures), k.m.stray, k.m.failures)
    ensures ok != Halted ==>
              LostLast(old(k.m.failures), old(k.m.pmm.freePages), k.m.failures, k.m.pmm.freePages, ok == Done)
    ensures ok == Done ==> k.m.pmm.freePages <= old(k.m.pmm.freePages)
    ensures ok != Halted ==> VmaLinked(old(dst.blocks), dst.blocks, old(k.Blocks()), mid, ps)
    ensures ok != Halted ==> OwnFrees(old(k.Blocks()), mid, ps, k.Blocks(), {})
    ensures ok == Done ==> ps == [] && |dst.blocks| == |old(dst.blocks)| + 1
    ensures ok == Done ==> Copying(m0, t0, p0, k.m.mem, k.m.tab, k.m.pages, k.m.kroot, src.root, dst.root, vs, i + 1,
                                   dst.vmas)
    ensures clean && ok == Done && k.m.stray == old(k.m.stray) ==>
              CopiedSoFar(m0, t0, p0, k.m.mem, k.m.tab, k.m.kroot, src.root, dst.root, vs, i + 1)
    ensures Fits(old(k.Blocks()), SIZEOF_VMA) ==>
              && more == 0 && ok != Halted && k.top == old(k.top)
              && (ok == Done ==>
                    && k.Blocks() == AllocAt(old(k.Blocks()), FirstFit(old(k.Blocks()), SIZEOF_VMA, 0), SIZEOF_VMA)
                    && dst.blocks == old(dst.blocks) + [FittingPtr(old(k.Blocks()), SIZEOF_VMA)])
    ensures vs[i].start < vs[i].end
    ensures old(k.m.pmm.freePages) >= more + NeedBound(vs[i].end - vs[i].start) ==>
              ok == Done && k.m.stray == old(k.m.stray)
              && k.m.pmm.freePages + more + NeedBound(vs[i].end - vs[i].start) >= old(k.m.pmm.freePages)
  {
    hide TableWf, PagesWf, Entry, HeapSpec.Tiles, View, IntrusiveList.IsRing, Up, Idx, Pmm.CountFree, Pmm.BitsOf,
      WindowMapped, TableAt, FrameOf, SlotReady, Confined, AreaCopied, Settled, SameMapped, OtherAreasKept,
      BothMapped, AheadUnmapped, AreasCopied, ChildPagesNew, CopyBound, NeedBound, SpaceOk, KeptOutside, NewPagesIn,
      MappedOrZero, RangeMapped, RangeUnmapped, PageSpan, FirstPage, PteFlags, VmasOk, Copying, CopiedSoFar, Covered,
      OnlySpaceGrew, Fits, AllocAt, TailFree, ChildMapped, ApartFrom, Losses, VmaLinked, OwnFrees, UpperRights,
      UppersKept, RangeRights, VmaRights, SameAsked;
    ghost var kroot, m1, t1, p1 := k.m.kroot, k.m.mem, k.m.tab, k.m.pages;
    CopyingParts(m0, t0, p0, m1, t1, p1, kroot, src.root, dst.root, vs, i, dst.vmas);
    SpaceParts(m0, t0, kroot, src.root, vs);
    var a := src.vmas[i];
    AreaAt(vs, i);
    PageBytes(a.start, a.end - a.start);
    AheadAt(m1, dst.root, vs, i);
    PrefixApart(vs, i);
    if clean {
      CopiedParts(m0, t0, p0, m1, t1, kroot, src.root, dst.root, vs, i);
    }
    ok, more, mid, ps := MapRange(k, dst, a.start * PAGE_SIZE, (a.end - a.start) * PAGE_SIZE, a.flags);
    if ok == Halted {
      return;
    }
    ghost var m2, t2, p2 := k.m.mem, k.m.tab, k.m.pages;
    ConfinedRoot(m1, t1, p1, m2, t2, p2, kroot, dst.root, dst.root);
    ConfinedTrans(m0, t0, p0, m1, t1, p1, m2, t2, p2, kroot, dst.root);
    if ok == Failed {
      return;
    }
    AreaListed(m0, t0, p0, m1, t1, p1, m2, t2, p2, kroot, src.root, dst.root, vs, i);
    CopyingParts(m0, t0, p0, m2, t2, p2, kroot, src.root, dst.root, vs, i + 1, dst.vmas);
    AlikeInArea(m0, t0, kroot, src.root, vs, m2, dst.root, i);
    var copied := CopyArea(k, dst.root, src.root, a.start, a.end, m0, t0, p0);
    CopyingGoesOn(m0, t0, p0, m2, k.m.mem, t2, p2, kroot, src.root, dst.root, vs, i + 1);
    if k.m.stray == old(k.m.stray) {
      RangeIsMapped(m2, p1, dst.root, PteFlags(a.flags), a.start, a.end);
      if clean {
        RoundCopied(m0, t0, p0, m1, t1, p1, m2, t2, p2, k.m.mem, kroot, src.root, dst.root, vs, i, PteFlags(a.flags));
      }
    }
    ok := if copied then Done else Failed;
  }

  lemma {:induction false} CopiedParts(m0: Memory, t0: Tables, p0: Pages, m: Memory, t: Tables, kroot: nat, src: nat,
                                       dst: nat, vs: seq<Vma>, i: nat)
    requires CopiedSoFar(m0, t0, p0, m, t, kroot, src, dst, vs, i)
    ensures i <= |vs| && SpaceOk(m, t, kroot, dst, vs[..i])
  {
    hide SpaceOk, AreasCopied;
  }

  // The copies after the round, from those before it.
  lemma {:induction false} RoundCopied(m0: Memory, t0: Tables, p0: Pages, m1: Memory, t1: Tables, p1: Pages, m2: Memory,
                                       t2: Tables, p2: Pages, m3: Memory, kroot: nat, src: nat, dst: nat, vs: seq<Vma>,
                                       i: nat, flags: nat)
    requires CopiedSoFar(m0, t0, p0, m1, t1, kroot, src, dst, vs, i) && i < |vs| && dst != kroot && IsRoot(t1, dst)
    requires PagesWf(m1, t1, p1, kroot) && Confined(m1, t1, p1, m2, t2, p2, kroot, dst)
    requires KeptOutside(m1, m2, dst, vs[i].start, vs[i].end - vs[i].start) && forall g :: g in p2 ==> g !in t2
    requires flags % 2 == 1 && flags < PAGE_SIZE && RangeMapped(m2, p1, dst, flags, vs[i].start,
                                                                vs[i].end - vs[i].start)
    requires SpaceOk(m2, t2, kroot, dst, vs[..i + 1])
    requires SameMapped(m2, m3, dst) && OtherAreasKept(m0, p0, m2, m3, src, dst, vs[i].start, vs[i].end)
    requires BothMapped(m0, src, m2, dst, vs[i].start, vs[i].end) ==>
              AreaCopied(m0, p0, m3, src, dst, vs[i].start, vs[i].end)
    ensures CopiedSoFar(m0, t0, p0, m3, t2, kroot, src, dst, vs, i + 1)
  {
    hide PagesWf, Confined, AreaCopied, SameMapped, OtherAreasKept, BothMapped, AreasCopied, SpaceOk, KeptOutside,
      RangeMapped, VmasOk, Covered;
    OkIsCovered(m0, t0, kroot, src, vs);
    SpaceParts(m0, t0, kroot, src, vs);
    AreaBothMapped(m0, t0, kroot, src, vs, m2, p1, dst, flags, i);
    AreasAfterMapping(m0, p0, m1, t1, p1, m2, t2, p2, kroot, src, dst, vs, i);
    AreasAfterCopy(m0, p0, m2, m3, src, dst, vs, i);
    SpaceOkAfterCopy(m2, m3, t2, kroot, dst, vs[..i + 1]);
  }

  lemma NoAreas(vs: seq<Vma>)
    ensures vs[..0] == [] && CopyBound(vs[..0]) == 0
  {
  }

  lemma AllAreas(vs: seq<Vma>)
    ensures vs[..|vs|] == vs
  {
  }

  lemma {:induction false} SpaceGone(tab: Tables, pages: Pages, t1: Tables, p1: Pages, root: nat)
    requires tab == WithoutSpace(t1, root) && pages == PagesWithout(p1, root) && IsRoot(t1, root)
              && t1[root].root == root
    ensures root !in tab && forall f :: f in pages ==> pages[f].root != root
  {
  }

  // mm_free(dst) on the failure paths of mm_copy.
  method Abandon(k: KernelHeap, dst: Mm)
    requires k.Valid() && IsRoot(k.m.tab, dst.root) && dst.root != k.m.kroot
    modifies k`size, k`isFree, k`order, k.nodes, k.m`tab, k.m`pages, k.m.pmm, k.m.pmm.bitmap
    ensures k.Valid() && dst.root !in k.m.tab && forall f :: f in k.m.pages ==> k.m.pages[f].root != dst.root
    ensures k.m.tab == WithoutSpace(old(k.m.tab), dst.root) && k.m.pages == PagesWithout(old(k.m.pages), dst.root)
    ensures k.Blocks() == HeapRuns.FreeEach(old(k.Blocks()), dst.Pointers())
    ensures Stale(k.m.mem, k.m.pmm.Bits(), k.m.kroot, dst.root)
  {
    hide TableWf, PagesWf, Entry, HeapSpec.Tiles, View, IntrusiveList.IsRing, Pmm.CountFree, Pmm.BitsOf, WindowMapped,
      Dropped, Stale;
    ghost var t1, p1 := k.m.tab, k.m.pages;
    Linked(k.m.mem, t1, k.m.kroot, dst.root);
    ghost var log := MmFree(k, dst);
    SpaceGone(k.m.tab, k.m.pages, t1, p1, dst.root);
  }

  // The heap side of a copy so far: nobody's block is touched, the child has new ones.
  ghost predicate ChildBlocks(bs0: seq<Block>, bs1: seq<Block>, blocks: seq<nat>, n: nat) {
    UsedKept(bs0, bs1) && AllNew(bs0, bs1, blocks, SIZEOF_VMA) && |blocks| == n
  }

  lemma {:induction false} NextBlock(bs0: seq<Block>, bs1: seq<Block>, mid: seq<Block>, before: seq<nat>,
                                     after: seq<nat>, n: nat)
    requires ChildBlocks(bs0, bs1, before, n) && VmaLinked(before, after, bs1, mid, []) && |after| == |before| + 1
    requires UsedKept(bs1, mid)
    ensures ChildBlocks(bs0, mid, after, n + 1)
  {
    hide InUse;
    NewBlock(bs0, bs1, mid, before, after[|before|], SIZEOF_VMA);
    assert after == before + [after[|before|]];
  }

  // The kfree calls of a failed copy: the VMA that could not be mapped, then all VMAs of the child
  // and its mm_struct.
  ghost predicate ChildFrees(ps: seq<nat>, own: seq<nat>) {
    |own| <= |ps| <= |own| + 1 && ps[|ps| - |own|..] == own
  }

  // A round that failed has touched nobody's block either.
  ghost predicate FailedBlocks(bs0: seq<Block>, mid: seq<Block>, ps: seq<nat>, bs1: seq<Block>, blocks: seq<nat>) {
    OwnFrees(bs0, mid, ps, bs1, {}) && |ps| <= 1 && forall p :: p in blocks ==> !InUse(bs0, p, 0)
  }

  lemma {:induction false} RoundFailed(bs0: seq<Block>, bs1: seq<Block>, mid: seq<Block>, bs2: seq<Block>,
                                       before: seq<nat>, after: seq<nat>, n: nat, ps: seq<nat>)
    requires ChildBlocks(bs0, bs1, before, n) && VmaLinked(before, after, bs1, mid, ps)
              && OwnFrees(bs1, mid, ps, bs2, {})
    ensures FailedBlocks(bs0, mid, ps, bs2, after)
  {
    hide InUse, HeapRuns.FreeEach;
    UsedTrans(bs0, bs1, mid);
    forall p | p in after || p in ps ensures !InUse(bs0, p, 0) {
      if p !in before {
        assert !InUse(bs1, p, 0);
      }
    }
  }

  lemma {:induction false} CopyUndone(bs0: seq<Block>, mid: seq<Block>, ps: seq<nat>, bs2: seq<Block>, bs3: seq<Block>,
                                      blocks: seq<nat>, block: nat)
    requires FailedBlocks(bs0, mid, ps, bs2, blocks) && bs3 == HeapRuns.FreeEach(bs2, blocks + [block])
    ensures OwnFrees(bs0, mid, ps + (blocks + [block]), bs3, {block})
              && ChildFrees(ps + (blocks + [block]), blocks + [block])
  {
    hide InUse, HeapRuns.FreeEach;
    FreeEachAppend(mid, ps, blocks + [block]);
  }

  // mm_copy into the fresh space dst. `taken` counts the frames the kernel heap took for the
  // blocks of the child's VMAs; `mid` is the heap after all kmalloc calls, `ps` lists the kfree calls.
  method MmCopy(k: KernelHeap, dst: Mm, src: Mm)
    returns (r: Status, ghost taken: nat, ghost mid: seq<Block>, ghost ps: seq<nat>)
    requires k.Valid() && dst.Ok(k.m) && dst != src && dst.root != src.root && dst.vmas == [] && dst.blocks == []
    requires Covered(k.m.mem, k.m.tab, k.m.kroot, src.root, src.vmas)
    modifies k`size, k`isFree, k`order, k`top, k.nodes, k.m`mem, k.m`tab, k.m`stray, k.m`failures, k.m`pages, k.m.pmm,
        k.m.pmm.bitmap
    modifies dst`vmas, dst`mapCount, dst`blocks
    ensures r != Halted ==> k.Valid() && old(k.m.stray) <= k.m.stray
    // success with no frame lost: every page of every parent area is copied into a frame of the
    // child's own, under the same flags, and the child has the parent's areas
    ensures r == Done && k.m.stray == old(k.m.stray) && old(src.Ok(k.m)) ==>
              dst.Ok(k.m) && AreasCopied(old(k.m.mem), old(k.m.pages), k.m.mem, src.root, dst.root, src.vmas)
    ensures r == Done ==>
              && dst.vmas == src.vmas && Covered(k.m.mem, k.m.tab, k.m.kroot, dst.root, dst.vmas)
              && ChildPagesNew(old(k.m.pages), k.m.pages, dst.root)
    // success: nothing but the child's own part and the kernel's has changed
    ensures r == Done ==>
              Confined(old(k.m.mem), old(k.m.tab), old(k.m.pages), k.m.mem, k.m.tab, k.m.pages, k.m.kroot, dst.root)
    // failure: the child is gone, and everything else is as it was but for the heap's growth; in
    // particular the parent
    ensures r == Failed ==>
              Dropped(old(k.m.mem), old(k.m.tab), old(k.m.pages), k.m.mem, k.m.tab, k.m.pages, k.m.kroot, dst.root)
    ensures r == Failed || r == Done ==>
              && Covered(k.m.mem, k.m.tab, k.m.kroot, src.root, src.vmas) && (old(src.Ok(k.m)) ==> src.Ok(k.m))
    ensures r == Failed ==> dst.root !in k.m.tab && forall f :: f in k.m.pages ==> k.m.pages[f].root != dst.root
    // every frame lost answers to a table that could not be had
    ensures Losses(old(k.m.stray), old(k.m.failures), k.m.stray, k.m.failures)
    // the child's VMAs lie in blocks that nobody had, one each
    ensures r == Done ==> ps == [] && ChildBlocks(old(k.Blocks()), k.Blocks(), dst.blocks, |dst.vmas|)
    // on failure they are given back, and memory still shows the child's tables
    ensures r == Failed ==>
              && OwnFrees(old(k.Blocks()), mid, ps, k.Blocks(), {dst.block}) && ChildFrees(ps, dst.Pointers())
              && Stale(k.m.mem, k.m.pmm.Bits(), k.m.kroot, dst.root)
    ensures r != Halted ==>
              && LostLast(old(k.m.failures), old(k.m.pmm.freePages), k.m.failures, k.m.pmm.freePages, r == Done)
              && (r == Done ==> k.m.pmm.freePages <= old(k.m.pmm.freePages))
    // enough frames behind what the heap took: success, nothing lost; the heap stops only when no
    // frame is left
    ensures old(k.m.pmm.freePages) >= taken + CopyBound(src.vmas) ==>
              r == Done && k.m.stray == old(k.m.stray)
              && k.m.pmm.freePages + taken + CopyBound(src.vmas) >= old(k.m.pmm.freePages)
    ensures r == Halted ==> k.m.pmm.freePages == 0
    // with room in the heap for the areas' blocks it takes nothing, and they are the first fits
    ensures RoomFor(old(k.Blocks()), |src.vmas|) ==>
              && taken == 0 && r != Halted && k.top == old(k.top)
              && (r == Done ==>
                    && k.Blocks() == AllocMany(old(k.Blocks()), SIZEOF_VMA, |src.vmas|)
                    && dst.blocks == ManyPtrs(old(k.Blocks()), SIZEOF_VMA, |src.vmas|))
  {
    hide TableWf, PagesWf, Entry, HeapSpec.Tiles, View, IntrusiveList.IsRing, Up, Idx, Pmm.CountFree, Pmm.BitsOf,
      WindowMapped, TableAt, SlotReady, Confined, AreasCopied, ChildPagesNew, CopyBound, NeedBound, SpaceOk, VmasOk,
      WithoutSpace, PagesWithout, Covered, Dropped, Fits, AllocAt, RoomFor, Copying, CopiedSoFar, KernelHeap.Valid,
      Losses, ChildBlocks, FailedBlocks, ChildFrees, OwnFrees, Stale, HeapRuns.FreeEach;
    ghost var m0, t0, p0, kroot, vs := k.m.mem, k.m.tab, k.m.pages, k.m.kroot, src.vmas;
    k.Parts();
    SpaceParts(m0, t0, kroot, src.root, vs);
    CopyStarts(m0, t0, p0, kroot, src.root, dst.root, vs);
    r, taken, mid, ps := CopyAreas(k, dst, src, src.Ok(k.m));
    if r == Failed {
      DropChild(k, m0, t0, p0, dst, src.root, vs, old(k.Blocks()), mid, ps);
      ps := ps + dst.Pointers();
    } else if r == Done {
      CopyEnds(m0, t0, p0, k.m.mem, k.m.tab, k.m.pages, kroot, src.root, dst.root, vs, dst.vmas);
    }
  }

  // The loop of mm_copy over the areas, up to the mm_free of a failure.
  method CopyAreas(k: KernelHeap, dst: Mm, src: Mm, ghost intact: bool)
    returns (r: Status, ghost taken: nat, ghost mid: seq<Block>, ghost ps: seq<nat>)
    requires k.Valid() && dst != src && dst.root != src.root && dst.vmas == [] && dst.blocks == []
    requires Covered(k.m.mem, k.m.tab, k.m.kroot, src.root, src.vmas)
    requires Copying(k.m.mem, k.m.tab, k.m.pages, k.m.mem, k.m.tab, k.m.pages, k.m.kroot, src.root, dst.root, src.vmas,
                     0, [])
    requires intact ==> CopiedSoFar(k.m.mem, k.m.tab, k.m.pages, k.m.mem, k.m.tab, k.m.kroot, src.root, dst.root,
                                    src.vmas, 0)
    requires CopyBound(src.vmas[..0]) == 0
    modifies k`size, k`isFree, k`order, k`top, k.nodes, k.m`mem, k.m`tab, k.m`stray, k.m`failures, k.m`pages, k.m.pmm,
        k.m.pmm.bitmap
    modifies dst`vmas, dst`mapCount, dst`blocks
    ensures Losses(old(k.m.stray), old(k.m.failures), k.m.stray, k.m.failures)
    ensures r != Halted ==>
              k.Valid() && old(k.m.stray) <= k.m.stray && IsRoot(k.m.tab, dst.root)
              && dst.root != k.m.kroot
    ensures r != Halted ==>
              Confined(old(k.m.mem), old(k.m.tab), old(k.m.pages), k.m.mem, k.m.tab, k.m.pages, k.m.kroot, dst.root)
    ensures r == Done ==>
              Copying(old(k.m.mem), old(k.m.tab), old(k.m.pages), k.m.mem, k.m.tab, k.m.pages, k.m.kroot, src.root,
                      dst.root,
                      src.vmas, |src.vmas|, dst.vmas)
    ensures r == Done && k.m.stray == old(k.m.stray) && intact ==>
              CopiedSoFar(old(k.m.mem), old(k.m.tab), old(k.m.pages), k.m.mem, k.m.tab, k.m.kroot, src.root, dst.root,
                          src.vmas, |src.vmas|)
    ensures r == Done ==> ps == [] && ChildBlocks(old(k.Blocks()), k.Blocks(), dst.blocks, |src.vmas|)
    ensures r == Failed ==> FailedBlocks(old(k.Blocks()), mid, ps, k.Blocks(), dst.blocks)
    ensures r == Halted ==> k.m.pmm.freePages == 0
    ensures r != Halted ==>
              && LostLast(old(k.m.failures), old(k.m.pmm.freePages), k.m.failures, k.m.pmm.freePages, r == Done)
              && (r == Done ==> k.m.pmm.freePages <= old(k.m.pmm.freePages))
    ensures old(k.m.pmm.freePages) >= taken + CopyBound(src.vmas) ==>
              r == Done && k.m.stray == old(k.m.stray)
              && k.m.pmm.freePages + taken + CopyBound(src.vmas) >= old(k.m.pmm.freePages)
    ensures RoomFor(old(k.Blocks()), |src.vmas|) ==>
              && taken == 0 && r != Halted && k.top == old(k.top)
              && (r == Done ==>
                    && k.Blocks() == AllocMany(old(k.Blocks()), SIZEOF_VMA, |src.vmas|)
                    && dst.blocks == ManyPtrs(old(k.Blocks()), SIZEOF_VMA, |src.vmas|))
  {
    hide TableWf, PagesWf, Entry, HeapSpec.Tiles, View, IntrusiveList.IsRing, Up, Idx, Pmm.CountFree, Pmm.BitsOf,
      WindowMapped, TableAt, SlotReady, Confined, AreasCopied, ChildPagesNew, CopyBound, NeedBound, SpaceOk, VmasOk,
      WithoutSpace, PagesWithout, Covered, Dropped, Fits, AllocAt, RoomFor, Copying, CopiedSoFar, KernelHeap.Valid,
      Losses, ChildBlocks, FailedBlocks, OwnFrees, VmaLinked, HeapRuns.FreeEach, AllocMany, LostLast, ManyPtrs,
      FittingPtr, VmasFitted;
    k.Parts();
    ghost var m0, t0, p0, kroot, vs := k.m.mem, k.m.tab, k.m.pages, k.m.kroot, src.vmas;
    ghost var s0, n0, bs0, room := k.m.stray, k.m.failures, k.Blocks(), RoomFor(k.Blocks(), |vs|);
    LossesRefl(s0, n0);
    NoBlocks(bs0);
    FitStart(bs0, |vs|);
    NoneLost(n0, k.m.pmm.freePages, k.m.pmm.freePages, true);
    AllAreas(vs);
    SpaceParts(m0, t0, kroot, src.root, vs);
    taken, mid, ps := 0, bs0, [];
    var i := 0;
    while i < |src.vmas|
      invariant i <= |vs| && src.vmas == vs && k.Valid() && k.Listed() && old(k.m.stray) <= k.m.stray && ps == []
      invariant Copying(m0, t0, p0, k.m.mem, k.m.tab, k.m.pages, kroot, src.root, dst.root, vs, i, dst.vmas)
      invariant k.m.stray == old(k.m.stray) && intact ==>
        CopiedSoFar(m0, t0, p0, k.m.mem, k.m.tab, kroot, src.root, dst.root, vs, i)
      invariant Losses(s0, n0, k.m.stray, k.m.failures) && ChildBlocks(bs0, k.Blocks(), dst.blocks, i)
      invariant k.m.pmm.freePages <= old(k.m.pmm.freePages)
      invariant LostLast(n0, old(k.m.pmm.freePages), k.m.failures, k.m.pmm.freePages, true)
      invariant room ==> taken == 0 && k.top == old(k.top) && VmasFitted(bs0, k.Blocks(), dst.blocks, i, |vs|)
      invariant old(k.m.pmm.freePages) >= taken + CopyBound(vs[..i]) ==>
        k.m.stray == old(k.m.stray) && k.m.pmm.freePages + taken + CopyBound(vs[..i]) >= old(k.m.pmm.freePages)
    {
      if room {
        FitNext(bs0, k.Blocks(), dst.blocks, i, |vs|);
      }
      ghost var s1, n1, f1, bs1, before := k.m.stray, k.m.failures, k.m.pmm.freePages, k.Blocks(), dst.blocks;
      var ok, more, during, frees := CopyNext(k, dst, src, i, m0, t0, p0, k.m.stray == old(k.m.stray) && intact, vs);
      if ok != Halted {
        LostLastStep(n0, old(k.m.pmm.freePages), n1, f1, k.m.failures, k.m.pmm.freePages, ok == Done);
      }
      taken := taken + more;
      LossesTrans(s0, n0, s1, n1, k.m.stray, k.m.failures);
      CopyBoundNext(vs, i);
      if ok == Halted {
        return Halted, taken, mid, ps;
      }
      k.Parts();
      if ok == Failed {
        RoundFailed(bs0, bs1, during, k.Blocks(), before, dst.blocks, i, frees);
        return Failed, taken, during, frees;
      }
      OwnNone(bs1, during, k.Blocks());
      NextBlock(bs0, bs1, during, before, dst.blocks, i);
      i := i + 1;
    }
    if room {
      FitEnd(bs0, k.Blocks(), dst.blocks, |vs|);
    }
    CopyingParts(m0, t0, p0, k.m.mem, k.m.tab, k.m.pages, kroot, src.root, dst.root, vs, |vs|, dst.vmas);
    r := Done;
  }

  // With room for n VMAs, i of them are in the first fits, and there is room for the others.
  ghost predicate VmasFitted(bs0: seq<Block>, bs: seq<Block>, blocks: seq<nat>, i: nat, n: nat) {
    i <= n && RoomFor(bs, n - i) && bs == AllocMany(bs0, SIZEOF_VMA, i) && blocks == ManyPtrs(bs0, SIZEOF_VMA, i)
  }

  lemma FitStart(bs: seq<Block>, n: nat)
    ensures RoomFor(bs, n) ==> VmasFitted(bs, bs, [], 0, n)
  {
    hide RoomFor;
    NextFirst(bs, SIZEOF_VMA, 0);
    NextPtr(bs, SIZEOF_VMA, 0);
  }

  lemma FitNext(bs0: seq<Block>, bs: seq<Block>, blocks: seq<nat>, i: nat, n: nat)
    requires VmasFitted(bs0, bs, blocks, i, n) && i < n
    ensures Fits(bs, SIZEOF_VMA)
    ensures VmasFitted(bs0, AllocAt(bs, FirstFit(bs, SIZEOF_VMA, 0), SIZEOF_VMA),
                       blocks + [FittingPtr(bs, SIZEOF_VMA)], i + 1, n)
  {
    hide RoomFor, AllocMany, ManyPtrs, AllocAt, FirstFit;
    RoomNext(bs, n - i);
    NextFirst(bs0, SIZEOF_VMA, i);
    NextPtr(bs0, SIZEOF_VMA, i);
  }

  lemma FitEnd(bs0: seq<Block>, bs: seq<Block>, blocks: seq<nat>, n: nat)
    requires VmasFitted(bs0, bs, blocks, n, n)
    ensures bs == AllocMany(bs0, SIZEOF_VMA, n) && blocks == ManyPtrs(bs0, SIZEOF_VMA, n)
  {
  }

  lemma NoBlocks(bs: seq<Block>)
    ensures ChildBlocks(bs, bs, [], 0)
  {
  }

  lemma {:induction false} CopyStarts(m0: Memory, t0: Tables, p0: Pages, kroot: nat, src: nat, dst: nat, vs: seq<Vma>)
    requires SpaceOk(m0, t0, kroot, dst, []) && Covered(m0, t0, kroot, src, vs) && PagesWf(m0, t0, p0, kroot)
    ensures Copying(m0, t0, p0, m0, t0, p0, kroot, src, dst, vs, 0, [])
    ensures SpaceOk(m0, t0, kroot, src, vs) ==> CopiedSoFar(m0, t0, p0, m0, t0, kroot, src, dst, vs, 0)
    ensures CopyBound(vs[..0]) == 0
  {
    hide SpaceOk, Covered, PagesWf, Confined, Settled, AheadUnmapped, ChildPagesNew, AreasCopied;
    OkIsCovered(m0, t0, kroot, dst, []);
    SpaceParts(m0, t0, kroot, dst, []);
    SpaceParts(m0, t0, kroot, src, vs);
    CopyBegins(m0, t0, p0, kroot, src, dst, vs);
    NoAreas(vs);
  }

  lemma CopyBoundNext(vs: seq<Vma>, i: nat)
    requires i < |vs| && vs[i].start < vs[i].end
    ensures CopyBound(vs[..i + 1]) == CopyBound(vs[..i]) + NeedBound(vs[i].end - vs[i].start)
    ensures CopyBound(vs[..i + 1]) <= CopyBound(vs)
  {
    hide CopyBound, NeedBound;
    CopyBoundPrefix(vs, i + 1);
    CopyBoundStep(vs, i);
  }

  lemma {:induction false} CopyEnds(m0: Memory, t0: Tables, p0: Pages, m: Memory, t: Tables, p: Pages, kroot: nat,
                                    src: nat, dst: nat, vs: seq<Vma>, areas: seq<Vma>)
    requires Copying(m0, t0, p0, m, t, p, kroot, src, dst, vs, |vs|, areas) && Covered(m0, t0, kroot, src, vs)
              && src != dst
    ensures Confined(m0, t0, p0, m, t, p, kroot, dst) && areas == vs && Covered(m, t, kroot, dst, areas)
              && ChildPagesNew(p0, p, dst)
    ensures Covered(m, t, kroot, src, vs) && (SpaceOk(m0, t0, kroot, src, vs) ==> SpaceOk(m, t, kroot, src, vs))
    ensures CopiedSoFar(m0, t0, p0, m, t, kroot, src, dst, vs, |vs|) ==>
              SpaceOk(m, t, kroot, dst, vs) && AreasCopied(m0, p0, m, src, dst, vs)
    ensures CopyBound(vs[..|vs|]) == CopyBound(vs)
  {
    hide Confined, Settled, AheadUnmapped, ChildPagesNew, Covered, SpaceOk, AreasCopied;
    AllAreas(vs);
    ParentKept(m0, t0, p0, m, t, p, kroot, dst, src, vs);
  }

  lemma {:induction false} ParentKept(m0: Memory, t0: Tables, p0: Pages, m1: Memory, t1: Tables, p1: Pages, kroot: nat,
                                      dst: nat, src: nat, vs: seq<Vma>)
    requires Confined(m0, t0, p0, m1, t1, p1, kroot, dst) && Covered(m0, t0, kroot, src, vs) && src != dst
    ensures Covered(m1, t1, kroot, src, vs)
    ensures SpaceOk(m0, t0, kroot, src, vs) ==> SpaceOk(m1, t1, kroot, src, vs)
  {
    hide Confined, SpaceOk, Covered;
    CoveredKept(m0, t0, p0, m1, t1, p1, kroot, dst, src, vs);
    if SpaceOk(m0, t0, kroot, src, vs) {
      SpaceOkKept(m0, t0, p0, m1, t1, p1, kroot, dst, src, vs);
    }
  }

  // The failure path: what is left of the system once the child is gone.
  method DropChild(k: KernelHeap, ghost m0: Memory, ghost t0: Tables, ghost p0: Pages, dst: Mm, ghost src: nat,
                   ghost vs: seq<Vma>, ghost bs0: seq<Block>, ghost mid: seq<Block>, ghost frees: seq<nat>)
    requires k.Valid() && IsRoot(k.m.tab, dst.root) && dst.root != k.m.kroot
    requires Confined(m0, t0, p0, k.m.mem, k.m.tab, k.m.pages, k.m.kroot, dst.root)
    requires Covered(m0, t0, k.m.kroot, src, vs) && src != dst.root && TableWf(m0, t0, k.m.kroot)
    requires FailedBlocks(bs0, mid, frees, k.Blocks(), dst.blocks)
    modifies k`size, k`isFree, k`order, k.nodes, k.m`tab, k.m`pages, k.m.pmm, k.m.pmm.bitmap
    ensures k.Valid() && dst.root !in k.m.tab && forall f :: f in k.m.pages ==> k.m.pages[f].root != dst.root
    ensures Dropped(m0, t0, p0, k.m.mem, k.m.tab, k.m.pages, k.m.kroot, dst.root)
    ensures Covered(k.m.mem, k.m.tab, k.m.kroot, src, vs)
    ensures SpaceOk(m0, t0, k.m.kroot, src, vs) ==> SpaceOk(k.m.mem, k.m.tab, k.m.kroot, src, vs)
    ensures OwnFrees(bs0, mid, frees + dst.Pointers(), k.Blocks(), {dst.block})
              && ChildFrees(frees + dst.Pointers(), dst.Pointers())
    ensures Stale(k.m.mem, k.m.pmm.Bits(), k.m.kroot, dst.root)
  {
    hide TableWf, PagesWf, Entry, HeapSpec.Tiles, View, IntrusiveList.IsRing, Pmm.CountFree, Pmm.BitsOf, WindowMapped,
      Dropped, Confined, Covered, SpaceOk, WithoutSpace, PagesWithout, SlotReady, Stale, FailedBlocks, OwnFrees,
      ChildFrees, HeapRuns.FreeEach;
    ghost var bs2 := k.Blocks();
    ghost var t1, p1, kroot := k.m.tab, k.m.pages, k.m.kroot;
    ConfinedThenDropped(m0, t0, p0, k.m.mem, t1, p1, kroot, dst.root);
    SpaceParts(m0, t0, kroot, src, vs);
    Linked(m0, t0, kroot, src);
    SpacesOutlive(m0, t0, p0, k.m.mem, WithoutSpace(t1, dst.root), PagesWithout(p1, dst.root), kroot, dst.root, src,
                  vs);
    Abandon(k, dst);
    CopyUndone(bs0, mid, frees, bs2, k.Blocks(), dst.blocks, dst.block);
  }

  // ---- Isolation ----

  // A write to a page of one space is never seen through another: no translation changes, and
  // every page of any other space keeps its contents.
  lemma {:induction false} WritesAreIsolated(mem: Memory, tab: Tables, pages: Pages, kroot: nat, a: nat, v: nat,
                                             data: Frame, b: nat, u: nat)
    requires SpaceWf(mem, tab, pages, kroot)
    requires IsRoot(tab, a) && IsRoot(tab, b) && a != kroot && b != kroot && v < USER_LIMIT && u < USER_LIMIT
    requires Present(Entry(mem, a, v)) && Present(Entry(mem, b, u)) && (a != b || v != u)
    ensures FrameOf(Entry(mem, a, v)) < |mem|
    ensures var mem' := mem[FrameOf(Entry(mem, a, v)) := data];
            FrameOf(Entry(mem, b, u)) < |mem|
            && Entry(mem', b, u) == Entry(mem, b, u)
            && mem'[FrameOf(Entry(mem, b, u))] == mem[FrameOf(Entry(mem, b, u))]
  {
    hide Entry, FrameOf, TableWf;
    TargetHeld(mem, tab, pages, kroot, a, v);
    TargetHeld(mem, tab, pages, kroot, b, u);
    DataWrite(mem, mem[FrameOf(Entry(mem, a, v)) := data], tab, kroot);
    SameAt(mem, mem[FrameOf(Entry(mem, a, v)) := data], tab, b, u);
  }
}
