/** Recursive release of an address space (user_pgtable_free_recursive in
    kernel/src/mm/paging.c and the page-table half of mm_free in kernel/src/mm/vmm.c).
  */
module Teardown {
  import opened Common
  import opened Pte
  import opened PageTable
  import opened Pmm
  import opened Machine

  // f is a table at `depth` or deeper, or a page, of the space `root`, and its prefix at
  // `depth` lies in [lo, hi).
  predicate Under(tab: Tables, pages: Pages, f: nat, root: nat, depth: nat, lo: nat, hi: nat)
    requires 1 <= depth <= 4
  {
    if f in tab then
      tab[f].root == root && depth <= tab[f].depth <= 3 && lo <= Up(First(tab[f].prefix, tab[f].depth), depth) < hi
    else
      f in pages && pages[f].root == root && lo <= Up(pages[f].vpn, depth) < hi
  }

  predicate TableOf(tab: Tables, f: nat, root: nat, depth: nat, prefix: nat) {
    f in tab && tab[f].root == root && tab[f].depth == depth && tab[f].prefix == prefix
  }

  // Everything below entry q of one level is the child table itself and what is below that.
  lemma {:induction false} UnderSplits(tab: Tables, pages: Pages, f: nat, root: nat, depth: nat, q: nat)
    requires 1 <= depth <= 3
    ensures Under(tab, pages, f, root, depth, q, q + 1) <==>
            TableOf(tab, f, root, depth, q) || Under(tab, pages, f, root, depth + 1, q * 512, q * 512 + 512)
  {
    if f in tab && tab[f].depth <= 3 {
      FirstUp(tab[f].prefix, tab[f].depth);
    }
  }

  // Frames of a user space, kept in step with memory.
  ghost predicate SpaceWf(mem: Memory, tab: Tables, pages: Pages, kroot: nat) {
    && TableWf(mem, tab, kroot) && PagesWf(mem, tab, pages, kroot)
    && forall f :: f in pages ==> f !in tab
  }

  // The entry of g that leads to an owned frame f is present.
  lemma {:induction false} EntryLeadsTo(mem: Memory, tab: Tables, pages: Pages, kroot: nat, g: nat, i: nat, f: nat)
    requires SpaceWf(mem, tab, pages, kroot) && g in tab && tab[g].depth <= 3 && i < 512 && tab[g].root != kroot
    requires Under(tab, pages, f, tab[g].root, tab[g].depth + 1, tab[g].prefix * 512 + i, tab[g].prefix * 512 + i + 1)
    ensures Present(Read(mem, g, i))
  {
    hide TableWf, Read;
    var r, d := tab[g].root, tab[g].depth;
    Linked(mem, tab, kroot, g);
    var x: nat;
    if f in tab {
      x := First(tab[f].prefix, tab[f].depth);
      FirstUp(tab[f].prefix, tab[f].depth);
      PrefixBound(mem, tab, kroot, f);
      FirstBound(tab[f].prefix, tab[f].depth);
      TablesAreMet(mem, tab, kroot, f, x);
      WalkPrefix(mem, r, x, d + 1, tab[f].depth);
    } else {
      x := pages[f].vpn;
      assert PageHeld(mem, tab, pages, kroot, f);
      if d < 3 {
        WalkPrefix(mem, r, x, d + 1, 3);
      }
    }
    assert Up(x, d) == tab[g].prefix && Idx(x, d) == i;
    TablesAreMet(mem, tab, kroot, g, x);
  }

  // The one frame that a present entry of a user table leads to directly.
  lemma {:induction false} EntryTarget(mem: Memory, tab: Tables, pages: Pages, kroot: nat, g: nat, i: nat, f: nat)
    requires SpaceWf(mem, tab, pages, kroot) && g in tab && tab[g].depth <= 3 && i < 512 && tab[g].root != kroot
    requires OwnsIndex(tab[g], kroot, i) && Present(Read(mem, g, i))
    ensures var q := tab[g].prefix * 512 + i;
            if tab[g].depth < 3
            then TableOf(tab, f, tab[g].root, tab[g].depth + 1, q) <==> f == FrameOf(Read(mem, g, i))
            else Under(tab, pages, f, tab[g].root, 4, q, q + 1) <==> f == FrameOf(Read(mem, g, i))
  {
    hide TableWf, Read, Present, FrameOf;
    var r, d, q := tab[g].root, tab[g].depth, tab[g].prefix * 512 + i;
    Linked(mem, tab, kroot, g);
    if d < 3 {
      Down(mem, tab, kroot, g, i);
      if TableOf(tab, f, r, d + 1, q) {
        PlacesAreUnique(mem, tab, kroot, f, FrameOf(Read(mem, g, i)));
      }
    } else {
      PtEntry(mem, tab, kroot, g, i);
      UpValues(q);
      UserTable(mem, tab, kroot, g, q);
      assert PageListed(mem, tab, pages, kroot, r, q);
      if f in pages {
        assert PageHeld(mem, tab, pages, kroot, f);
      }
    }
  }

  // Entry i of a PT is the flat entry of page prefix * 512 + i.
  lemma {:induction false} PtEntry(mem: Memory, tab: Tables, kroot: nat, g: nat, i: nat)
    requires TableWf(mem, tab, kroot) && g in tab && tab[g].depth == 3 && i < 512
    ensures tab[g].prefix * 512 + i < VPN_LIMIT
    ensures Entry(mem, tab[g].root, tab[g].prefix * 512 + i) == Read(mem, g, i)
  {
    hide TableWf;
    var q := tab[g].prefix * 512 + i;
    PrefixBound(mem, tab, kroot, g);
    assert Pow512(3) == 512 * Pow512(2) == 512 * (512 * Pow512(1)) == 512 * 512 * 512;
    assert Up(q, 3) == tab[g].prefix && Idx(q, 3) == i;
    TablesAreMet(mem, tab, kroot, g, q);
  }

  // The tables of a user space lie in its user half.
  lemma {:induction false} UserTable(mem: Memory, tab: Tables, kroot: nat, g: nat, v: nat)
    requires TableWf(mem, tab, kroot) && g in tab && 1 <= tab[g].depth <= 3 && tab[g].root != kroot
    requires v < VPN_LIMIT && Up(v, tab[g].depth) == tab[g].prefix
    ensures v < USER_LIMIT
  {
    hide TableWf;
    Linked(mem, tab, kroot, g);
    TablesAreMet(mem, tab, kroot, g, v);
    WalkMeetsTables(mem, tab, kroot, tab[g].root, v, tab[g].depth);
  }

  // ---- The release ----

  // The log of a release lists exactly the frames below [lo, hi), each once.
  ghost predicate Logs(log: seq<nat>, tab: Tables, pages: Pages, root: nat, depth: nat, lo: nat, hi: nat)
    requires 1 <= depth <= 4
  {
    && (forall f: nat :: f in log <==> Under(tab, pages, f, root, depth, lo, hi))
    && (forall j, k :: 0 <= j < k < |log| ==> log[j] != log[k])
  }

  ghost predicate BusyUnder(bits: seq<bool>, tab: Tables, pages: Pages, root: nat, depth: nat, lo: nat, hi: nat)
    requires 1 <= depth <= 4
  {
    forall f: nat :: Under(tab, pages, f, root, depth, lo, hi) ==> f < |bits| && bits[f]
  }

  // Between two bitmaps exactly the logged frames became free.
  ghost predicate Released(bits: seq<bool>, bits': seq<bool>, log: seq<nat>) {
    && |bits'| == |bits|
    && (forall f :: f in log ==> f < |bits| && bits[f])
    && (forall f :: 0 <= f < |bits| ==> bits'[f] == (bits[f] && f !in log))
  }

  lemma {:induction false} LogChild(mem: Memory, tab: Tables, pages: Pages, kroot: nat, g: nat, i: nat, sub: seq<nat>)
    requires SpaceWf(mem, tab, pages, kroot) && g in tab && tab[g].depth <= 3 && i < 512 && tab[g].root != kroot
    requires OwnsIndex(tab[g], kroot, i) && Present(Read(mem, g, i))
    requires var q := tab[g].prefix * 512 + i;
             if tab[g].depth < 3 then Logs(sub, tab, pages, tab[g].root, tab[g].depth + 2, q * 512, q * 512 + 512)
             else sub == []
    ensures var q := tab[g].prefix * 512 + i;
            FrameOf(Read(mem, g, i)) !in sub
            && Logs(sub + [FrameOf(Read(mem, g, i))], tab, pages, tab[g].root, tab[g].depth + 1, q, q + 1)
  {
    hide TableWf, PagesWf, Read, Present, FrameOf, Under, Up, First;
    var c, q, d := FrameOf(Read(mem, g, i)), tab[g].prefix * 512 + i, tab[g].depth;
    var log := sub + [c];
    forall f: nat ensures f in log <==> Under(tab, pages, f, tab[g].root, d + 1, q, q + 1) {
      EntryTarget(mem, tab, pages, kroot, g, i, f);
      if d < 3 {
        UnderSplits(tab, pages, f, tab[g].root, d + 1, q);
      }
    }
    EntryTarget(mem, tab, pages, kroot, g, i, c);
    if d < 3 {
      NotUnderItself(tab, pages, c, tab[g].root, d + 1, q);
    }
  }

  lemma {:induction false} NotUnderItself(tab: Tables, pages: Pages, c: nat, root: nat, depth: nat, q: nat)
    requires 1 <= depth <= 3 && TableOf(tab, c, root, depth, q)
    ensures !Under(tab, pages, c, root, depth + 1, q * 512, q * 512 + 512)
  {
  }

  lemma {:induction false} LogAppend(tab: Tables, pages: Pages, root: nat, depth: nat, lo: nat, mid: nat, hi: nat,
                                     a: seq<nat>, b: seq<nat>)
    requires 1 <= depth <= 4 && lo <= mid <= hi
    requires Logs(a, tab, pages, root, depth, lo, mid) && Logs(b, tab, pages, root, depth, mid, hi)
    ensures Logs(a + b, tab, pages, root, depth, lo, hi)
  {
    hide Up, First;
    assert forall f: nat :: Under(tab, pages, f, root, depth, lo, hi) <==>
      Under(tab, pages, f, root, depth, lo, mid) || Under(tab, pages, f, root, depth, mid, hi);
    forall j, k | 0 <= j < k < |a + b| ensures (a + b)[j] != (a + b)[k] {
      if j < |a| <= k {
        assert a[j] in a && b[k - |a|] in b;
      }
    }
  }

  lemma {:induction false} NothingBelow(mem: Memory, tab: Tables, pages: Pages, kroot: nat, g: nat, i: nat)
    requires SpaceWf(mem, tab, pages, kroot) && g in tab && tab[g].depth <= 3 && i < 512 && tab[g].root != kroot
    requires !Present(Read(mem, g, i))
    ensures Logs([], tab, pages, tab[g].root, tab[g].depth + 1, tab[g].prefix * 512 + i, tab[g].prefix * 512 + i + 1)
  {
    hide TableWf, PagesWf, Read, Present, FrameOf, Up, First, Under;
    var q := tab[g].prefix * 512 + i;
    var r, depth, hi := tab[g].root, tab[g].depth + 1, q + 1;
    forall f: nat ensures !Under(tab, pages, f, r, depth, q, hi) {
      if Under(tab, pages, f, r, depth, q, hi) {
        EntryLeadsTo(mem, tab, pages, kroot, g, i, f);
      }
    }
  }

  // user_pgtable_free_recursive on the table g of a user space. Every pmm_free_page call
  // releases a busy frame, and `log` lists the calls in order.
  method FreeRecursive(m: Machine, g: nat, level: nat) returns (ghost log: seq<nat>)
    requires m.pmm.Valid() && m.pmm.Tight() && SpaceWf(m.mem, m.tab, m.pages, m.kroot)
    requires 1 <= level <= 4 && g in m.tab && g < |m.mem| && m.tab[g].depth == 4 - level && m.tab[g].root != m.kroot
    requires BusyUnder(m.pmm.Bits(), m.tab, m.pages, m.tab[g].root, 5 - level, m.tab[g].prefix * 512,
                       m.tab[g].prefix * 512 + 512)
    modifies m.pmm, m.pmm.bitmap
    ensures m.pmm.Valid() && m.pmm.Tight()
    ensures Logs(log, m.tab, m.pages, m.tab[g].root, 5 - level, m.tab[g].prefix * 512,
                 m.tab[g].prefix * 512 + if level == 4 then 256 else 512)
    ensures Released(old(m.pmm.Bits()), m.pmm.Bits(), log)
    ensures m.pmm.freePages == old(m.pmm.freePages) + |log|
    decreases level
  {
    hide TableWf, PagesWf, Read, Present, FrameOf, Up, First, Under, CountFree, BitsOf, BusyBelow;
    NothingReleased(m.pmm.Bits());
    log := [];
    var limit := if level == 4 then 256 else 512;
    ghost var root, depth, base := m.tab[g].root, 5 - level, m.tab[g].prefix * 512;
    ghost var bits0 := m.pmm.Bits();
    NothingInEmptyRange(m.tab, m.pages, root, depth, base);
    var i := 0;
    while i < limit
      invariant i <= limit && m.pmm.Valid() && m.pmm.Tight()
      invariant Logs(log, m.tab, m.pages, root, depth, base, base + i)
      invariant Released(bits0, m.pmm.Bits(), log)
      invariant m.pmm.freePages == old(m.pmm.freePages) + |log|
    {
      var entry := m.mem[g][i];
      assert entry == Read(m.mem, g, i) by {
        ReadIs(m.mem, g, i);
      }
      ghost var sub := [];
      if Present(entry) {
        ghost var bits1 := m.pmm.Bits();
        NothingReleased(bits1);
        StillBusy(m.tab, m.pages, root, depth, base, i, bits0, bits1, log);
        if level > 1 {
          ChildTable(m.mem, m.tab, m.pages, m.kroot, g, i);
          sub := FreeRecursive(m, FrameOf(entry), level - 1);
        }
        LogChild(m.mem, m.tab, m.pages, m.kroot, g, i, sub);
        ChildBusy(m.tab, m.pages, root, depth, base + i, base + i + 1, bits1, m.pmm.Bits(), sub, FrameOf(entry));
        var r := m.pmm.FreePage(FrameOf(entry));
        assert r == Freed;
        sub := sub + [FrameOf(entry)];
      } else {
        NothingBelow(m.mem, m.tab, m.pages, m.kroot, g, i);
      }
      LogAppend(m.tab, m.pages, root, depth, base, base + i, base + i + 1, log, sub);
      log := log + sub;
      i := i + 1;
    }
  }

  // What lies below entry i has not been released while the entries before it were visited.
  lemma {:induction false} StillBusy(tab: Tables, pages: Pages, root: nat, depth: nat, base: nat, i: nat,
                                     bits0: seq<bool>, bits1: seq<bool>, log: seq<nat>)
    requires 1 <= depth <= 4 && i < 512
    requires BusyUnder(bits0, tab, pages, root, depth, base, base + 512)
    requires Logs(log, tab, pages, root, depth, base, base + i) && Released(bits0, bits1, log)
    ensures BusyUnder(bits1, tab, pages, root, depth, base + i, base + i + 1)
  {
    hide Up, First;
    var lo, hi, end := base + i, base + i + 1, base + 512;
    forall f: nat | Under(tab, pages, f, root, depth, lo, hi) ensures f < |bits1| && bits1[f] {
      assert Under(tab, pages, f, root, depth, base, end);
      assert !Under(tab, pages, f, root, depth, base, lo);
    }
  }

  lemma NothingReleased(bits: seq<bool>)
    ensures Released(bits, bits, [])
  {
  }

  // The child's own frame is busy after everything below it was released.
  lemma {:induction false} ChildBusy(tab: Tables, pages: Pages, root: nat, depth: nat, lo: nat, hi: nat,
                                     bits1: seq<bool>, bits2: seq<bool>, sub: seq<nat>, f: nat)
    requires 1 <= depth <= 4 && BusyUnder(bits1, tab, pages, root, depth, lo, hi)
    requires Logs(sub + [f], tab, pages, root, depth, lo, hi) && f !in sub && Released(bits1, bits2, sub)
    ensures f < |bits2| && bits2[f]
  {
    hide Under;
    assert (sub + [f])[|sub|] == f;
    assert f in sub + [f];
  }

  ghost predicate Nested(tab: Tables, pages: Pages, root: nat, depth: nat, lo: nat, hi: nat, depth': nat, lo': nat,
                         hi': nat)
    requires 1 <= depth <= 4 && 1 <= depth' <= 4
  {
    forall f: nat :: Under(tab, pages, f, root, depth', lo', hi') ==> Under(tab, pages, f, root, depth, lo, hi)
  }

  lemma {:induction false} ChildTable(mem: Memory, tab: Tables, pages: Pages, kroot: nat, g: nat, i: nat)
    requires SpaceWf(mem, tab, pages, kroot) && g in tab && tab[g].depth < 3 && i < 512 && tab[g].root != kroot
    requires OwnsIndex(tab[g], kroot, i) && Present(Read(mem, g, i))
    ensures var c, q := FrameOf(Read(mem, g, i)), tab[g].prefix * 512 + i;
            TableOf(tab, c, tab[g].root, tab[g].depth + 1, q) && c < |mem|
            && Nested(tab, pages, tab[g].root, tab[g].depth + 1, q, q + 1, tab[g].depth + 2, q * 512, q * 512 + 512)
  {
    hide TableWf, Read, Present, FrameOf, Under;
    Down(mem, tab, kroot, g, i);
    Linked(mem, tab, kroot, FrameOf(Read(mem, g, i)));
    var q := tab[g].prefix * 512 + i;
    var r, depth, hi, lo', hi' := tab[g].root, tab[g].depth + 1, q + 1, q * 512, q * 512 + 512;
    forall f: nat | Under(tab, pages, f, r, depth + 1, lo', hi') ensures Under(tab, pages, f, r, depth, q, hi) {
      UnderSplits(tab, pages, f, r, depth, q);
    }
  }

  lemma ReadIs(mem: Memory, g: nat, i: nat)
    requires g < |mem| && i < 512
    ensures Read(mem, g, i) == mem[g][i]
  {
  }

  lemma {:induction false} NothingInEmptyRange(tab: Tables, pages: Pages, root: nat, depth: nat, base: nat)
    requires 1 <= depth <= 4
    ensures Logs([], tab, pages, root, depth, base, base)
  {
  }

  // ---- The whole space ----

  // f is a table or page of the space, the PML4 included.
  predicate Belongs(tab: Tables, pages: Pages, f: nat, root: nat) {
    (f in tab && tab[f].root == root) || (f in pages && pages[f].root == root)
  }

  function PagesWithout(pages: Pages, root: nat): Pages {
    map f | f in pages && pages[f].root != root :: pages[f]
  }

  // Below the PML4, everything a user space owns lies under its entries 0..255.
  lemma {:induction false} UnderRoot(mem: Memory, tab: Tables, pages: Pages, kroot: nat, root: nat, f: nat)
    requires SpaceWf(mem, tab, pages, kroot) && IsRoot(tab, root) && root != kroot
    ensures Under(tab, pages, f, root, 1, 0, 256) <==> f != root && Belongs(tab, pages, f, root)
    ensures Under(tab, pages, f, root, 1, 0, 512) <==> f != root && Belongs(tab, pages, f, root)
    ensures Belongs(tab, pages, root, root)
  {
    hide TableWf;
    Linked(mem, tab, kroot, root);
    if f in tab && tab[f].root == root {
      Linked(mem, tab, kroot, f);
      if tab[f].depth > 0 {
        var v := First(tab[f].prefix, tab[f].depth);
        FirstUp(tab[f].prefix, tab[f].depth);
        PrefixBound(mem, tab, kroot, f);
        FirstBound(tab[f].prefix, tab[f].depth);
        UserTable(mem, tab, kroot, f, v);
        UpValues(v);
      }
    } else if f in pages && pages[f].root == root {
      assert PageHeld(mem, tab, pages, kroot, f);
      UpValues(pages[f].vpn);
    }
  }

  lemma {:induction false} PagesDropSpace(mem: Memory, tab: Tables, pages: Pages, kroot: nat, root: nat)
    requires TableWf(mem, tab, kroot) && PagesWf(mem, tab, pages, kroot)
    ensures PagesWf(mem, WithoutSpace(tab, root), PagesWithout(pages, root), kroot)
  {
    hide Entry, TableWf;
    var tab', pages' := WithoutSpace(tab, root), PagesWithout(pages, root);
    forall f | f in pages' ensures PageHeld(mem, tab', pages', kroot, f) {
      assert PageHeld(mem, tab, pages, kroot, f);
      Linked(mem, tab, kroot, pages[f].root);
    }
    forall r: nat, v: nat ensures PageListed(mem, tab', pages', kroot, r, v) {
      assert PageListed(mem, tab, pages, kroot, r, v);
      if r in tab {
        Linked(mem, tab, kroot, r);
      }
    }
  }

  // ---- Released a second time ----

  // No frame of the space is busy any more.
  ghost predicate AllFree(bits: seq<bool>, tab: Tables, pages: Pages, root: nat) {
    forall f: nat :: Belongs(tab, pages, f, root) ==> f < |bits| && !bits[f]
  }

  // Memory still holds the tables of the space as they were when all its frames were released.
  ghost predicate StaleAs(mem: Memory, bits: seq<bool>, kroot: nat, root: nat, tab: Tables, pages: Pages) {
    SpaceWf(mem, tab, pages, kroot) && IsRoot(tab, root) && root != kroot && AllFree(bits, tab, pages, root)
  }

  ghost predicate Stale(mem: Memory, bits: seq<bool>, kroot: nat, root: nat) {
    exists tab, pages :: StaleAs(mem, bits, kroot, root, tab, pages)
  }

  lemma {:induction false} ReleasedIsStale(mem: Memory, tab: Tables, pages: Pages, kroot: nat, root: nat,
                                           bits0: seq<bool>, bits1: seq<bool>, log: seq<nat>)
    requires SpaceWf(mem, tab, pages, kroot) && IsRoot(tab, root) && root != kroot
    requires Released(bits0, bits1, log) && forall f: nat :: f in log <==> Belongs(tab, pages, f, root)
    ensures Stale(mem, bits1, kroot, root)
  {
    hide SpaceWf, Belongs;
    assert StaleAs(mem, bits1, kroot, root, tab, pages);
  }

  // The frame behind a present entry of a table belongs to the table's space.
  lemma {:induction false} EntryBelongs(mem: Memory, tab: Tables, pages: Pages, kroot: nat, g: nat, i: nat)
    requires SpaceWf(mem, tab, pages, kroot) && g in tab && tab[g].depth <= 3 && i < 512 && tab[g].root != kroot
    requires OwnsIndex(tab[g], kroot, i) && Present(Read(mem, g, i))
    ensures Belongs(tab, pages, FrameOf(Read(mem, g, i)), tab[g].root)
  {
    hide TableWf, PagesWf, Read, Present, FrameOf, Up, First;
    EntryTarget(mem, tab, pages, kroot, g, i, FrameOf(Read(mem, g, i)));
  }

  // user_pgtable_free_recursive on a table that was released before and not overwritten since:
  // every pmm_free_page call finds a free frame, and the allocator does not change.
  method FreeAgain(m: Machine, g: nat, level: nat, ghost tab: Tables, ghost pages: Pages)
    requires m.pmm.Valid() && m.pmm.Tight() && SpaceWf(m.mem, tab, pages, m.kroot)
    requires 1 <= level <= 4 && g in tab && g < |m.mem| && tab[g].depth == 4 - level && tab[g].root != m.kroot
    requires AllFree(m.pmm.Bits(), tab, pages, tab[g].root)
    modifies m.pmm, m.pmm.bitmap
    ensures m.pmm.Valid() && m.pmm.Tight()
    ensures m.pmm.Bits() == old(m.pmm.Bits()) && m.pmm.freePages == old(m.pmm.freePages)
              && m.pmm.cursor == old(m.pmm.cursor)
    decreases level
  {
    hide TableWf, PagesWf, Read, Present, FrameOf, Up, First, Under, CountFree, BitsOf, BusyBelow, Belongs;
    var limit := if level == 4 then 256 else 512;
    var i := 0;
    while i < limit
      invariant i <= limit && m.pmm.Valid() && m.pmm.Tight()
      invariant m.pmm.Bits() == old(m.pmm.Bits()) && m.pmm.freePages == old(m.pmm.freePages)
                && m.pmm.cursor == old(m.pmm.cursor)
    {
      var entry := m.mem[g][i];
      assert entry == Read(m.mem, g, i) by {
        ReadIs(m.mem, g, i);
      }
      if Present(entry) {
        EntryBelongs(m.mem, tab, pages, m.kroot, g, i);
        if level > 1 {
          ChildTable(m.mem, tab, pages, m.kroot, g, i);
          FreeAgain(m, FrameOf(entry), level - 1, tab, pages);
        }
        var r := m.pmm.FreePage(FrameOf(entry));
        assert r == DoubleFree;
      }
      i := i + 1;
    }
  }
}
