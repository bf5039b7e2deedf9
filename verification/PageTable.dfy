/** The four-level page-table forest as values (kernel/src/mm/paging.c).

    Physical memory is a sequence of frames, reached through the HHDM as the identity. The
    hardware walk `Entry` is defined on memory alone. The ghost map `tab` says which frame is
    the table at which place of which tree; `TableWf` ties it to memory in both directions,
    so the map is exactly the shape of the forest.
  */
module PageTable {
  import opened Common
  import opened Pte

  type Memory = seq<Frame>

  // The table at `depth` on the path `prefix` of the tree rooted at frame `root`, hung from
  // frame `parent`.
  datatype TableInfo = TableInfo(root: nat, depth: nat, prefix: nat, parent: nat)

  // A 4 KB page mapped at page number `vpn` of the tree rooted at frame `root`.
  datatype PageInfo = PageInfo(root: nat, vpn: nat)

  type Tables = map<nat, TableInfo>
  type Pages = map<nat, PageInfo>

  // ---- The walk ----

  function Read(mem: Memory, g: nat, i: nat): Word {
    if g < |mem| && i < 512 then mem[g][i] else 0
  }

  // The table at `depth` on the way to page v, if the path exists (get_next_table, allocate = false).
  function TableAt(mem: Memory, root: nat, v: nat, depth: nat): Option<nat>
    requires depth <= 3
  {
    if depth == 0 then Some(root)
    else
      var up := TableAt(mem, root, v, depth - 1);
      if up == None then None
      else
        var e := Read(mem, up.value, Idx(v, depth - 1));
        if Present(e) then Some(FrameOf(e)) else None
  }

  // The word that vmm_get_pte points at; 0 when it returns NULL.
  function Entry(mem: Memory, root: nat, v: nat): Word {
    var t := TableAt(mem, root, v, 3);
    if t == None then 0 else Read(mem, t.value, Idx(v, 3))
  }

  // The entry that the walk to page v reads in the table at `depth`; 0 when there is no such table.
  function EntryAt(mem: Memory, root: nat, v: nat, depth: nat): Word
    requires depth <= 3
  {
    var t := TableAt(mem, root, v, depth);
    if t == None then 0 else Read(mem, t.value, Idx(v, depth))
  }

  // What the entries above `depth` on the way to page v allow, as far as they exist.
  function UpperTo(mem: Memory, root: nat, v: nat, depth: nat): Rights
    requires depth <= 3
  {
    if depth == 0 then ALL_RIGHTS
    else
      var e := EntryAt(mem, root, v, depth - 1);
      if Present(e) then Both(UpperTo(mem, root, v, depth - 1), RightsOf(e)) else UpperTo(mem, root, v, depth - 1)
  }

  function UpperRights(mem: Memory, root: nat, v: nat): Rights { UpperTo(mem, root, v, 3) }

  // The rights of a mapped page: what all four entries of the walk allow.
  function PageRights(mem: Memory, root: nat, v: nat): Rights {
    Both(UpperRights(mem, root, v), RightsOf(Entry(mem, root, v)))
  }

  // The entries that the walk to page v reads, from the PML4 down.
  function WalkEntries(mem: Memory, root: nat, v: nat): seq<Word> {
    [EntryAt(mem, root, v, 0), EntryAt(mem, root, v, 1), EntryAt(mem, root, v, 2), EntryAt(mem, root, v, 3)]
  }

  // A mapped page may be written, or used from user mode, when all four entries say so.
  lemma {:induction false} RightsOfWalk(mem: Memory, root: nat, v: nat)
    requires Present(Entry(mem, root, v))
    ensures forall e :: e in WalkEntries(mem, root, v) ==> Present(e)
    ensures PageRights(mem, root, v).write <==> forall e :: e in WalkEntries(mem, root, v) ==> RightsOf(e).write
    ensures PageRights(mem, root, v).user <==> forall e :: e in WalkEntries(mem, root, v) ==> RightsOf(e).user
  {
    hide Idx, Read, RightsOf;
    assert TableAt(mem, root, v, 3) != None && EntryAt(mem, root, v, 3) == Entry(mem, root, v);
    assert TableAt(mem, root, v, 2) != None && Present(EntryAt(mem, root, v, 2));
    assert TableAt(mem, root, v, 1) != None && Present(EntryAt(mem, root, v, 1));
    assert Present(EntryAt(mem, root, v, 0));
    hide EntryAt, TableAt, Present;
    assert UpperTo(mem, root, v, 1) == Both(ALL_RIGHTS, RightsOf(EntryAt(mem, root, v, 0)));
    assert UpperTo(mem, root, v, 2) == Both(UpperTo(mem, root, v, 1), RightsOf(EntryAt(mem, root, v, 1)));
    assert UpperTo(mem, root, v, 3) == Both(UpperTo(mem, root, v, 2), RightsOf(EntryAt(mem, root, v, 2)));
  }

  // Pages in the same table share the entries above it.
  lemma {:induction false} UpperToSameTables(mem: Memory, root: nat, u: nat, v: nat, depth: nat)
    requires depth <= 3 && Up(u, depth) == Up(v, depth)
    ensures UpperTo(mem, root, u, depth) == UpperTo(mem, root, v, depth)
  {
    hide RightsOf, Both;
    if depth > 0 {
      TableAtSameTables(mem, root, u, v, depth - 1);
      UpperToSameTables(mem, root, u, v, depth - 1);
    }
  }

  // One step of the walk, with the entry it reads.
  lemma UpperStep(mem: Memory, root: nat, v: nat, depth: nat, g: nat)
    requires depth < 3 && TableAt(mem, root, v, depth) == Some(g)
    ensures UpperTo(mem, root, v, depth + 1) ==
            if Present(Read(mem, g, Idx(v, depth)))
            then Both(UpperTo(mem, root, v, depth), RightsOf(Read(mem, g, Idx(v, depth))))
            else UpperTo(mem, root, v, depth)
  {
    hide RightsOf, Both;
  }

  // Below a missing table there is nothing that could withhold a right.
  lemma {:induction false} UpperBelowMissing(mem: Memory, root: nat, v: nat, depth: nat, deeper: nat)
    requires 1 <= depth <= deeper <= 3 && TableAt(mem, root, v, depth) == None
    ensures TableAt(mem, root, v, deeper) == None
    ensures UpperTo(mem, root, v, deeper) == UpperTo(mem, root, v, depth - 1)
    decreases deeper
  {
    hide RightsOf, Both, Read;
    ZeroIsAbsent();
    if depth < deeper {
      UpperBelowMissing(mem, root, v, depth, deeper - 1);
    }
  }

  // How many of the tables below `depth` on the way to v do not exist yet.
  function MissingBelow(mem: Memory, root: nat, v: nat, depth: nat): nat
    requires depth <= 3
    decreases 3 - depth
  {
    if depth == 3 then 0
    else if TableAt(mem, root, v, depth + 1) == None then 3 - depth
    else MissingBelow(mem, root, v, depth + 1)
  }

  // How many tables vmm_map_page must create before it can write the entry for v.
  function Missing(mem: Memory, root: nat, v: nat): nat {
    MissingBelow(mem, root, v, 0)
  }

  lemma {:induction false} TableAtSameTables(mem: Memory, root: nat, u: nat, v: nat, depth: nat)
    requires depth <= 3
    requires Up(u, depth) == Up(v, depth)
    ensures TableAt(mem, root, u, depth) == TableAt(mem, root, v, depth)
  {
    if depth > 0 {
      TableAtSameTables(mem, root, u, v, depth - 1);
    }
  }

  // ---- The shape of the forest ----

  predicate IsRoot(tab: Tables, r: nat) {
    r in tab && tab[r].depth == 0
  }

  // The kernel's PML4 owns all of its entries; any other PML4 owns 0..255 and copies the rest.
  predicate OwnsIndex(t: TableInfo, kroot: nat, i: nat) {
    t.depth == 0 && t.root != kroot ==> i < 256
  }

  ghost predicate LinkedUp(mem: Memory, tab: Tables, kroot: nat, g: nat)
    requires g in tab
  {
    var t := tab[g];
    && g < |mem|
    && t.depth <= 3
    && IsRoot(tab, t.root)
    && if t.depth == 0 then t == TableInfo(g, 0, 0, g)
       else
         && t.parent in tab
         && t.parent < |mem|
         && tab[t.parent].root == t.root
         && tab[t.parent].depth == t.depth - 1
         && tab[t.parent].prefix == t.prefix / 512
         && OwnsIndex(tab[t.parent], kroot, t.prefix % 512)
         && Present(mem[t.parent][t.prefix % 512])
         && FrameOf(mem[t.parent][t.prefix % 512]) == g
  }

  predicate ChildAt(tab: Tables, g: nat, i: nat, c: nat)
    requires g in tab
  {
    c in tab && tab[c] == TableInfo(tab[g].root, tab[g].depth + 1, tab[g].prefix * 512 + i, g)
  }

  predicate LinkedDown(mem: Memory, tab: Tables, kroot: nat, g: nat, i: nat)
    requires g in tab
  {
    tab[g].depth < 3 && i < 512 && OwnsIndex(tab[g], kroot, i) && Present(Read(mem, g, i)) ==>
      ChildAt(tab, g, i, FrameOf(Read(mem, g, i)))
  }

  predicate SharesKernelHalf(mem: Memory, tab: Tables, kroot: nat, r: nat, i: nat) {
    IsRoot(tab, r) && 256 <= i < 512 ==> Read(mem, r, i) == Read(mem, kroot, i)
  }

  ghost predicate TableWf(mem: Memory, tab: Tables, kroot: nat) {
    && IsRoot(tab, kroot)
    && (forall g {:trigger LinkedUp(mem, tab, kroot, g)} :: g in tab ==> LinkedUp(mem, tab, kroot, g))
    && (forall g, i {:trigger LinkedDown(mem, tab, kroot, g, i)} :: g in tab && 0 <= i ==>
        LinkedDown(mem, tab, kroot, g, i))
    && (forall r, i {:trigger SharesKernelHalf(mem, tab, kroot, r, i)} :: r in tab && 0 <= i ==>
        SharesKernelHalf(mem, tab, kroot, r, i))
  }

  // The parts of TableWf, one place at a time.
  lemma {:induction false} Linked(mem: Memory, tab: Tables, kroot: nat, g: nat)
    requires TableWf(mem, tab, kroot) && g in tab
    ensures IsRoot(tab, kroot) && LinkedUp(mem, tab, kroot, g) && tab[g].depth <= 3
  {
  }

  lemma {:induction false} Down(mem: Memory, tab: Tables, kroot: nat, g: nat, i: nat)
    requires TableWf(mem, tab, kroot) && g in tab && tab[g].depth < 3 && i < 512 && OwnsIndex(tab[g], kroot, i)
    requires Present(Read(mem, g, i))
    ensures ChildAt(tab, g, i, FrameOf(Read(mem, g, i)))
  {
    assert LinkedDown(mem, tab, kroot, g, i);
  }

  lemma {:induction false} Shared(mem: Memory, tab: Tables, kroot: nat, r: nat, i: nat)
    requires TableWf(mem, tab, kroot) && IsRoot(tab, r) && 256 <= i < 512
    ensures IsRoot(tab, kroot) && Read(mem, r, i) == Read(mem, kroot, i)
  {
    assert SharesKernelHalf(mem, tab, kroot, r, i);
  }

  // Whose tables carry page v when it is walked from root r.
  function Home(kroot: nat, r: nat, v: nat): nat {
    if v < USER_LIMIT then r else kroot
  }

  // A walk only meets tables, at the place the map says.
  lemma {:induction false} WalkMeetsTables(mem: Memory, tab: Tables, kroot: nat, r: nat, v: nat, depth: nat)
    requires TableWf(mem, tab, kroot) && IsRoot(tab, r)
    requires v < VPN_LIMIT && depth <= 3
    requires TableAt(mem, r, v, depth) != None
    ensures var g := TableAt(mem, r, v, depth).value;
            g in tab && tab[g].depth == depth && tab[g].prefix == Up(v, depth)
            && tab[g].root == if depth == 0 then r else Home(kroot, r, v)
  {
    hide TableWf;
    UpValues(v);
    Linked(mem, tab, kroot, r);
    Linked(mem, tab, kroot, kroot);
    if depth > 0 {
      WalkMeetsTables(mem, tab, kroot, r, v, depth - 1);
      var g := TableAt(mem, r, v, depth - 1).value;
      var i := Idx(v, depth - 1);
      assert Up(v, depth) == Up(v, depth - 1) * 512 + i;
      if depth == 1 && r != kroot && i >= 256 {
        Shared(mem, tab, kroot, r, i);
        Down(mem, tab, kroot, kroot, i);
      } else {
        Down(mem, tab, kroot, g, i);
      }
    }
  }

  // Every table in the map is met by the walk to any page below it.
  lemma {:induction false} TablesAreMet(mem: Memory, tab: Tables, kroot: nat, g: nat, v: nat)
    requires TableWf(mem, tab, kroot) && g in tab
    requires tab[g].depth <= 3 && v < VPN_LIMIT && Up(v, tab[g].depth) == tab[g].prefix
    ensures TableAt(mem, tab[g].root, v, tab[g].depth) == Some(g)
    decreases tab[g].depth
  {
    Linked(mem, tab, kroot, g);
    hide TableWf;
    var t := tab[g];
    if t.depth > 0 {
      assert Up(v, t.depth - 1) == t.prefix / 512;
      TablesAreMet(mem, tab, kroot, t.parent, v);
      assert Idx(v, t.depth - 1) == t.prefix % 512;
    }
  }

  // A prefix at depth d has 9 * d bits, so the first page below it is a page number.
  lemma {:induction false} PrefixBound(mem: Memory, tab: Tables, kroot: nat, g: nat)
    requires TableWf(mem, tab, kroot) && g in tab
    ensures tab[g].depth <= 3 && tab[g].prefix < Pow512(tab[g].depth)
    decreases if g in tab then tab[g].depth else 0
  {
    assert LinkedUp(mem, tab, kroot, g);
    if tab[g].depth > 0 {
      PrefixBound(mem, tab, kroot, tab[g].parent);
    }
  }

  // Two frames are never the table at the same place.
  lemma {:induction false} PlacesAreUnique(mem: Memory, tab: Tables, kroot: nat, g: nat, h: nat)
    requires TableWf(mem, tab, kroot) && g in tab && h in tab
    requires tab[g].root == tab[h].root && tab[g].depth == tab[h].depth && tab[g].prefix == tab[h].prefix
    ensures g == h
  {
    PrefixBound(mem, tab, kroot, g);
    var v := First(tab[g].prefix, tab[g].depth);
    FirstUp(tab[g].prefix, tab[g].depth);
    FirstBound(tab[g].prefix, tab[g].depth);
    TablesAreMet(mem, tab, kroot, g, v);
    TablesAreMet(mem, tab, kroot, h, v);
  }

  // ---- How memory writes change the walks ----

  ghost predicate SameOnTables(mem: Memory, mem': Memory, tab: Tables) {
    |mem'| == |mem| && forall g :: g in tab && g < |mem| ==> mem'[g] == mem[g]
  }

  // Writes outside the tables (user data, heap and stack pages) leave every walk alone.
  lemma {:induction false} WalkUnchanged(mem: Memory, mem': Memory, tab: Tables, kroot: nat, r: nat, v: nat, depth: nat)
    requires TableWf(mem, tab, kroot) && SameOnTables(mem, mem', tab)
    requires IsRoot(tab, r) && v < VPN_LIMIT && depth <= 3
    ensures TableAt(mem', r, v, depth) == TableAt(mem, r, v, depth)
    ensures UpperTo(mem', r, v, depth) == UpperTo(mem, r, v, depth)
  {
    hide TableWf, Up, Idx;
    if depth > 0 {
      WalkUnchanged(mem, mem', tab, kroot, r, v, depth - 1);
      if TableAt(mem, r, v, depth - 1) != None {
        WalkMeetsTables(mem, tab, kroot, r, v, depth - 1);
        Linked(mem, tab, kroot, TableAt(mem, r, v, depth - 1).value);
      }
    }
  }

  ghost predicate SameEntries(mem: Memory, mem': Memory, tab: Tables) {
    forall r, v: nat :: IsRoot(tab, r) && v < VPN_LIMIT ==> Entry(mem', r, v) == Entry(mem, r, v)
  }

  lemma {:induction false} DataWrite(mem: Memory, mem': Memory, tab: Tables, kroot: nat)
    requires TableWf(mem, tab, kroot) && SameOnTables(mem, mem', tab)
    ensures TableWf(mem', tab, kroot)
    ensures SameEntries(mem, mem', tab)
  {
    DataWriteShape(mem, mem', tab, kroot);
    hide TableWf, Up, Idx;
    forall r, v: nat | IsRoot(tab, r) && v < VPN_LIMIT ensures Entry(mem', r, v) == Entry(mem, r, v) {
      WalkUnchanged(mem, mem', tab, kroot, r, v, 3);
      if TableAt(mem, r, v, 3) != None {
        WalkMeetsTables(mem, tab, kroot, r, v, 3);
      }
    }
  }

  lemma {:induction false} DataWriteShape(mem: Memory, mem': Memory, tab: Tables, kroot: nat)
    requires TableWf(mem, tab, kroot) && SameOnTables(mem, mem', tab)
    ensures TableWf(mem', tab, kroot)
  {
    forall g | g in tab ensures LinkedUp(mem', tab, kroot, g) {
      Linked(mem, tab, kroot, g);
    }
    forall g, i: nat | g in tab ensures LinkedDown(mem', tab, kroot, g, i) {
      assert LinkedDown(mem, tab, kroot, g, i);
    }
    forall r, i: nat | r in tab ensures SharesKernelHalf(mem', tab, kroot, r, i) {
      assert SharesKernelHalf(mem, tab, kroot, r, i);
    }
  }

  function WriteWord(mem: Memory, g: nat, i: nat, e: Word): (mem': Memory)
    requires g < |mem| && i < 512
  {
    mem[g := mem[g][i := e]]
  }

  // get_next_table with allocate = true: a zeroed frame nf becomes the table below entry i of g.
  function InsertedMem(mem: Memory, g: nat, i: nat, nf: nat, e: Word): Memory
    requires g < |mem| && nf < |mem| && i < 512
  {
    WriteWord(mem[nf := ZeroFrame()], g, i, e)
  }

  function InsertedTab(tab: Tables, g: nat, i: nat, nf: nat): Tables
    requires g in tab
  {
    tab[nf := TableInfo(tab[g].root, tab[g].depth + 1, tab[g].prefix * 512 + i, g)]
  }

  ghost predicate CanInsert(mem: Memory, tab: Tables, kroot: nat, g: nat, i: nat, nf: nat, e: Word) {
    && TableWf(mem, tab, kroot)
    && g in tab && tab[g].depth < 3 && i < 512 && OwnsIndex(tab[g], kroot, i)
    && g < |mem| && !Present(mem[g][i])
    && nf < |mem| && nf !in tab && Present(e) && FrameOf(e) == nf
    // slots 256..511 of the kernel's PML4 are filled before any other PML4 copies them
    && (g == kroot && i >= 256 ==> forall r :: IsRoot(tab, r) ==> r == kroot)
  }

  lemma {:induction false} InsertReads(mem: Memory, tab: Tables, kroot: nat, g: nat, i: nat, nf: nat, e: Word, h: nat,
                                       j: nat)
    requires CanInsert(mem, tab, kroot, g, i, nf, e) && j < 512
    ensures Read(InsertedMem(mem, g, i, nf, e), h, j) ==
            if h == g && j == i then e else if h == nf then 0 else Read(mem, h, j)
    ensures Present(Read(mem, h, j)) ==> !(h == g && j == i)
  {
    hide TableWf;
  }

  lemma {:induction false} InsertLinksUp(mem: Memory, tab: Tables, kroot: nat, g: nat, i: nat, nf: nat, e: Word, h: nat)
    requires CanInsert(mem, tab, kroot, g, i, nf, e) && (h in tab || h == nf)
    ensures LinkedUp(InsertedMem(mem, g, i, nf, e), InsertedTab(tab, g, i, nf), kroot, h)
  {
    hide TableWf;
    Linked(mem, tab, kroot, if h == nf then g else h);
    if h == nf {
      InsertReads(mem, tab, kroot, g, i, nf, e, g, i);
    } else if tab[h].depth > 0 {
      InsertReads(mem, tab, kroot, g, i, nf, e, tab[h].parent, tab[h].prefix % 512);
    }
  }

  lemma {:induction false} InsertLinksDown(mem: Memory, tab: Tables, kroot: nat, g: nat, i: nat, nf: nat, e: Word,
                                           h: nat, j: nat)
    requires CanInsert(mem, tab, kroot, g, i, nf, e) && (h in tab || h == nf)
    ensures LinkedDown(InsertedMem(mem, g, i, nf, e), InsertedTab(tab, g, i, nf), kroot, h, j)
  {
    hide TableWf;
    if j < 512 {
      InsertReads(mem, tab, kroot, g, i, nf, e, h, j);
      if h in tab && !(h == g && j == i) && tab[h].depth < 3 && OwnsIndex(tab[h], kroot, j)
          && Present(Read(mem, h, j)) {
        Down(mem, tab, kroot, h, j);
      }
    }
  }

  lemma {:induction false} InsertShares(mem: Memory, tab: Tables, kroot: nat, g: nat, i: nat, nf: nat, e: Word, r: nat,
                                        j: nat)
    requires CanInsert(mem, tab, kroot, g, i, nf, e)
    ensures SharesKernelHalf(InsertedMem(mem, g, i, nf, e), InsertedTab(tab, g, i, nf), kroot, r, j)
  {
    hide TableWf;
    if IsRoot(InsertedTab(tab, g, i, nf), r) && 256 <= j < 512 {
      assert IsRoot(tab, r);
      Linked(mem, tab, kroot, g);
      Linked(mem, tab, kroot, tab[g].root);
      Shared(mem, tab, kroot, r, j);
      InsertReads(mem, tab, kroot, g, i, nf, e, r, j);
      InsertReads(mem, tab, kroot, g, i, nf, e, kroot, j);
    }
  }

  lemma {:induction false} InsertKeepsShape(mem: Memory, tab: Tables, kroot: nat, g: nat, i: nat, nf: nat, e: Word)
    requires CanInsert(mem, tab, kroot, g, i, nf, e)
    ensures TableWf(InsertedMem(mem, g, i, nf, e), InsertedTab(tab, g, i, nf), kroot)
  {
    var mem', tab' := InsertedMem(mem, g, i, nf, e), InsertedTab(tab, g, i, nf);
    forall h | h in tab' ensures LinkedUp(mem', tab', kroot, h) {
      InsertLinksUp(mem, tab, kroot, g, i, nf, e, h);
    }
    forall h, j: nat | h in tab' ensures LinkedDown(mem', tab', kroot, h, j) {
      InsertLinksDown(mem, tab, kroot, g, i, nf, e, h, j);
    }
    forall r, j: nat | r in tab' ensures SharesKernelHalf(mem', tab', kroot, r, j) {
      InsertShares(mem, tab, kroot, g, i, nf, e, r, j);
    }
  }

  // The walk in the new memory: as before, or newly through the empty table nf.
  lemma {:induction false} InsertWalk(mem: Memory, tab: Tables, kroot: nat, g: nat, i: nat, nf: nat, e: Word, r: nat,
                                      v: nat, depth: nat)
    requires CanInsert(mem, tab, kroot, g, i, nf, e)
    requires IsRoot(tab, r) && v < VPN_LIMIT && depth <= 3
    ensures var mem' := InsertedMem(mem, g, i, nf, e);
            var t, t' := TableAt(mem, r, v, depth), TableAt(mem', r, v, depth);
            if t != None then t' == t else t' == None || t' == Some(nf)
    ensures var mem' := InsertedMem(mem, g, i, nf, e);
            && Both(UpperTo(mem', r, v, depth), RightsOf(e)) == Both(UpperTo(mem, r, v, depth), RightsOf(e))
            && (TableAt(mem, r, v, depth) != None ==> UpperTo(mem', r, v, depth) == UpperTo(mem, r, v, depth))
  {
    hide TableWf, Up, Idx, RightsOf;
    if depth > 0 {
      InsertWalk(mem, tab, kroot, g, i, nf, e, r, v, depth - 1);
      var t := TableAt(mem, r, v, depth - 1);
      if t != None {
        WalkMeetsTables(mem, tab, kroot, r, v, depth - 1);
      }
    }
  }

  lemma {:induction false} InsertKeepsEntries(mem: Memory, tab: Tables, kroot: nat, g: nat, i: nat, nf: nat, e: Word)
    requires CanInsert(mem, tab, kroot, g, i, nf, e)
    ensures SameEntries(mem, InsertedMem(mem, g, i, nf, e), tab)
  {
    hide TableWf, Up, Idx;
    var mem' := InsertedMem(mem, g, i, nf, e);
    forall r, v: nat | IsRoot(tab, r) && v < VPN_LIMIT ensures Entry(mem', r, v) == Entry(mem, r, v) {
      InsertWalk(mem, tab, kroot, g, i, nf, e, r, v, 3);
      if TableAt(mem, r, v, 3) != None {
        WalkMeetsTables(mem, tab, kroot, r, v, 3);
      }
    }
  }

  // Writing entry i of a PT changes the translation of one page and nothing else.
  lemma {:induction false} LeafKeepsShape(mem: Memory, tab: Tables, kroot: nat, g: nat, i: nat, e: Word)
    requires TableWf(mem, tab, kroot) && g in tab && tab[g].depth == 3 && g < |mem| && i < 512
    ensures TableWf(WriteWord(mem, g, i, e), tab, kroot)
  {
    var mem' := WriteWord(mem, g, i, e);
    forall h | h in tab ensures LinkedUp(mem', tab, kroot, h) {
      Linked(mem, tab, kroot, h);
    }
    forall h, j: nat | h in tab ensures LinkedDown(mem', tab, kroot, h, j) {
      assert LinkedDown(mem, tab, kroot, h, j);
    }
    forall r, j: nat | r in tab ensures SharesKernelHalf(mem', tab, kroot, r, j) {
      assert SharesKernelHalf(mem, tab, kroot, r, j);
    }
  }

  lemma {:induction false} LeafWalk(mem: Memory, tab: Tables, kroot: nat, g: nat, i: nat, e: Word, r: nat, v: nat,
                                    depth: nat)
    requires TableWf(mem, tab, kroot) && g in tab && tab[g].depth == 3 && g < |mem| && i < 512
    requires IsRoot(tab, r) && v < VPN_LIMIT && depth <= 3
    ensures TableAt(WriteWord(mem, g, i, e), r, v, depth) == TableAt(mem, r, v, depth)
    ensures UpperTo(WriteWord(mem, g, i, e), r, v, depth) == UpperTo(mem, r, v, depth)
  {
    hide TableWf, Up, Idx;
    if depth > 0 {
      LeafWalk(mem, tab, kroot, g, i, e, r, v, depth - 1);
      if TableAt(mem, r, v, depth - 1) != None {
        WalkMeetsTables(mem, tab, kroot, r, v, depth - 1);
      }
    }
  }

  // The flat view after the entry of page v in the tree of r becomes e: page v changes in r,
  // and a kernel-half page changes for every root at once.
  ghost predicate FlatUpdate(mem: Memory, mem': Memory, tab: Tables, kroot: nat, r: nat, v: nat, e: Word) {
    forall s, u: nat :: IsRoot(tab, s) && u < VPN_LIMIT ==>
      Entry(mem', s, u) == if u == v && Home(kroot, s, u) == Home(kroot, r, v) then e else Entry(mem, s, u)
  }

  lemma {:induction false} LeafWrite(mem: Memory, tab: Tables, kroot: nat, g: nat, e: Word, r: nat, v: nat)
    requires TableWf(mem, tab, kroot) && IsRoot(tab, r) && v < VPN_LIMIT
    requires TableAt(mem, r, v, 3) == Some(g)
    ensures g in tab && tab[g].depth == 3 && tab[g].root == Home(kroot, r, v) && g < |mem|
    ensures var mem' := WriteWord(mem, g, Idx(v, 3), e);
            TableWf(mem', tab, kroot) && FlatUpdate(mem, mem', tab, kroot, r, v, e)
  {
    hide TableWf;
    WalkMeetsTables(mem, tab, kroot, r, v, 3);
    Linked(mem, tab, kroot, g);
    var i := Idx(v, 3);
    var mem' := WriteWord(mem, g, i, e);
    LeafKeepsShape(mem, tab, kroot, g, i, e);
    forall s, u: nat | IsRoot(tab, s) && u < VPN_LIMIT
      ensures Entry(mem', s, u) ==
              if u == v && Home(kroot, s, u) == Home(kroot, r, v) then e else Entry(mem, s, u)
    {
      LeafWalk(mem, tab, kroot, g, i, e, s, u, 3);
      var t := TableAt(mem, s, u, 3);
      if t != None {
        WalkMeetsTables(mem, tab, kroot, s, u, 3);
        if t.value == g && Idx(u, 3) == i {
          UpInjective(u, v);
        }
      }
      if u == v && Home(kroot, s, u) == Home(kroot, r, v) {
        FirstTableShared(mem, tab, kroot, s, r, v, 3);
      }
    }
  }

  // Two roots with the same home for v meet the same tables below the PML4.
  lemma {:induction false} FirstTableShared(mem: Memory, tab: Tables, kroot: nat, s: nat, r: nat, v: nat, depth: nat)
    requires TableWf(mem, tab, kroot) && IsRoot(tab, s) && IsRoot(tab, r) && v < VPN_LIMIT
    requires Home(kroot, s, v) == Home(kroot, r, v) && 1 <= depth <= 3
    ensures TableAt(mem, s, v, depth) == TableAt(mem, r, v, depth)
    ensures UpperTo(mem, s, v, depth) == UpperTo(mem, r, v, depth)
  {
    hide TableWf;
    UpValues(v);
    if depth > 1 {
      FirstTableShared(mem, tab, kroot, s, r, v, depth - 1);
    } else if s != r {
      Shared(mem, tab, kroot, s, Idx(v, 0));
      Shared(mem, tab, kroot, r, Idx(v, 0));
    }
  }

  // Kernel-half agreement: every root translates a kernel-half page as the kernel's own PML4 does.
  lemma {:induction false} KernelHalfAgrees(mem: Memory, tab: Tables, kroot: nat, r: nat, v: nat)
    requires TableWf(mem, tab, kroot) && IsRoot(tab, r) && USER_LIMIT <= v < VPN_LIMIT
    ensures Entry(mem, r, v) == Entry(mem, kroot, v) && PageRights(mem, r, v) == PageRights(mem, kroot, v)
  {
    FirstTableShared(mem, tab, kroot, r, kroot, v, 3);
  }

  // A forest of one empty tree.
  lemma FirstRoot(mem: Memory, r: nat)
    requires r < |mem| && forall i :: 0 <= i < 512 ==> mem[r][i] == 0
    ensures TableWf(mem, map[r := TableInfo(r, 0, 0, r)], r)
    ensures forall v: nat :: Entry(mem, r, v) == 0
  {
    hide Up;
    forall v: nat ensures Entry(mem, r, v) == 0 {
      assert TableAt(mem, r, v, 1) == None;
      assert TableAt(mem, r, v, 2) == None;
    }
  }

  // mm_alloc: frame nf becomes a PML4 with an empty user half and the kernel's upper half.
  predicate IsFreshRoot(mem: Memory, mem': Memory, kroot: nat, nf: nat) {
    && kroot < |mem| && nf < |mem| && |mem'| == |mem|
    && mem' == mem[nf := mem'[nf]]
    && forall i :: 0 <= i < 512 ==> mem'[nf][i] == if i < 256 then 0 else mem[kroot][i]
  }

  lemma {:induction false} NewRoot(mem: Memory, mem': Memory, tab: Tables, kroot: nat, nf: nat)
    requires TableWf(mem, tab, kroot) && nf !in tab && IsFreshRoot(mem, mem', kroot, nf)
    ensures TableWf(mem', tab[nf := TableInfo(nf, 0, 0, nf)], kroot)
    ensures SameEntries(mem, mem', tab)
    ensures forall v: nat :: v < USER_LIMIT ==> Entry(mem', nf, v) == 0 && UpperRights(mem', nf, v) == ALL_RIGHTS
  {
    DataWrite(mem, mem', tab, kroot);
    NewRootShape(mem', tab, kroot, nf);
    forall v: nat | v < USER_LIMIT ensures Entry(mem', nf, v) == 0 && UpperRights(mem', nf, v) == ALL_RIGHTS {
      EmptyRoot(mem', nf, v);
    }
  }

  lemma EmptyRoot(mem: Memory, r: nat, v: nat)
    requires v < USER_LIMIT && forall i :: 0 <= i < 256 ==> Read(mem, r, i) == 0
    ensures Entry(mem, r, v) == 0 && UpperRights(mem, r, v) == ALL_RIGHTS
  {
    UpValues(v);
    hide Up, Idx, RightsOf, Both;
    assert EntryAt(mem, r, v, 0) == 0;
    assert TableAt(mem, r, v, 1) == None && EntryAt(mem, r, v, 1) == 0;
    assert TableAt(mem, r, v, 2) == None && EntryAt(mem, r, v, 2) == 0;
    assert UpperTo(mem, r, v, 1) == ALL_RIGHTS && UpperTo(mem, r, v, 2) == ALL_RIGHTS;
  }

  lemma {:induction false} NewRootShape(mem: Memory, tab: Tables, kroot: nat, nf: nat)
    requires TableWf(mem, tab, kroot) && nf !in tab && nf < |mem|
    requires forall i :: 0 <= i < 512 ==> Read(mem, nf, i) == if i < 256 then 0 else Read(mem, kroot, i)
    ensures TableWf(mem, tab[nf := TableInfo(nf, 0, 0, nf)], kroot)
  {
    var tab' := tab[nf := TableInfo(nf, 0, 0, nf)];
    forall g | g in tab' ensures LinkedUp(mem, tab', kroot, g) {
      if g != nf {
        Linked(mem, tab, kroot, g);
      }
    }
    forall g, i: nat | g in tab' ensures LinkedDown(mem, tab', kroot, g, i) {
      if g != nf {
        assert LinkedDown(mem, tab, kroot, g, i);
      }
    }
    forall r, i: nat | r in tab' ensures SharesKernelHalf(mem, tab', kroot, r, i) {
      if r != nf {
        assert SharesKernelHalf(mem, tab, kroot, r, i);
      }
    }
  }

  // mm_free: dropping every table of one space leaves the others as they were.
  function WithoutSpace(tab: Tables, r: nat): Tables {
    map g | g in tab && tab[g].root != r :: tab[g]
  }

  lemma {:induction false} DropSpace(mem: Memory, tab: Tables, kroot: nat, r: nat)
    requires TableWf(mem, tab, kroot) && r != kroot
    ensures TableWf(mem, WithoutSpace(tab, r), kroot)
  {
    var tab' := WithoutSpace(tab, r);
    Linked(mem, tab, kroot, kroot);
    forall g | g in tab' ensures LinkedUp(mem, tab', kroot, g) {
      Linked(mem, tab, kroot, g);
      Linked(mem, tab, kroot, tab[g].root);
    }
    forall g, i: nat | g in tab' ensures LinkedDown(mem, tab', kroot, g, i) {
      assert LinkedDown(mem, tab, kroot, g, i);
    }
    forall s, i: nat | s in tab' ensures SharesKernelHalf(mem, tab', kroot, s, i) {
      assert SharesKernelHalf(mem, tab, kroot, s, i);
    }
  }

  // ---- Growing the tables of one space ----

  ghost predicate TabGrows(tab: Tables, tab': Tables, root: nat) {
    && (forall g :: g in tab ==> g in tab' && tab'[g] == tab[g])
    && (forall g :: g in tab' && g !in tab ==> tab'[g].root == root && tab'[g].depth > 0)
  }

  // Only the tables of `root` and frames that have just become tables are written.
  ghost predicate MemGrows(mem: Memory, mem': Memory, tab: Tables, tab': Tables, root: nat) {
    && |mem'| == |mem|
    && forall g :: 0 <= g < |mem| && (g !in tab' || (g in tab && tab[g].root != root)) ==> mem'[g] == mem[g]
  }

  predicate WalkKept(mem: Memory, mem': Memory, r: nat, v: nat, depth: nat) {
    depth <= 3 && TableAt(mem, r, v, depth) != None ==>
      TableAt(mem', r, v, depth) == TableAt(mem, r, v, depth) && UpperTo(mem', r, v, depth) == UpperTo(mem, r, v, depth)
  }

  ghost predicate WalksKept(mem: Memory, mem': Memory, tab: Tables) {
    forall r, v: nat, depth: nat {:trigger WalkKept(mem, mem', r, v, depth)} ::
      IsRoot(tab, r) && v < VPN_LIMIT ==> WalkKept(mem, mem', r, v, depth)
  }

  ghost predicate Grown(mem: Memory, tab: Tables, mem': Memory, tab': Tables, root: nat) {
    && TabGrows(tab, tab', root) && MemGrows(mem, mem', tab, tab', root)
    && SameEntries(mem, mem', tab) && WalksKept(mem, mem', tab)
  }

  lemma {:induction false} InsertGrows(mem: Memory, tab: Tables, kroot: nat, g: nat, i: nat, nf: nat, e: Word)
    requires CanInsert(mem, tab, kroot, g, i, nf, e)
    ensures TableWf(InsertedMem(mem, g, i, nf, e), InsertedTab(tab, g, i, nf), kroot)
    ensures Grown(mem, tab, InsertedMem(mem, g, i, nf, e), InsertedTab(tab, g, i, nf), tab[g].root)
    ensures Read(InsertedMem(mem, g, i, nf, e), g, i) == e
    ensures EmptyTable(InsertedMem(mem, g, i, nf, e), nf)
  {
    InsertKeepsShape(mem, tab, kroot, g, i, nf, e);
    InsertKeepsEntries(mem, tab, kroot, g, i, nf, e);
    InsertReads(mem, tab, kroot, g, i, nf, e, g, i);
    hide TableWf, TableAt, Entry;
    var mem' := InsertedMem(mem, g, i, nf, e);
    forall r, v: nat, depth: nat | IsRoot(tab, r) && v < VPN_LIMIT ensures WalkKept(mem, mem', r, v, depth) {
      if depth <= 3 {
        InsertWalk(mem, tab, kroot, g, i, nf, e, r, v, depth);
      }
    }
  }

  lemma {:induction false} GrownRefl(mem: Memory, tab: Tables, root: nat)
    ensures Grown(mem, tab, mem, tab, root)
  {
  }

  lemma {:induction false} GrownTrans(m0: Memory, t0: Tables, m1: Memory, t1: Tables, m2: Memory, t2: Tables, root: nat)
    requires Grown(m0, t0, m1, t1, root) && Grown(m1, t1, m2, t2, root)
    ensures Grown(m0, t0, m2, t2, root)
  {
    hide TableAt, Entry;
    assert forall r :: IsRoot(t0, r) ==> IsRoot(t1, r);
    forall r, v: nat | IsRoot(t0, r) && v < VPN_LIMIT ensures Entry(m2, r, v) == Entry(m0, r, v) {
      assert Entry(m1, r, v) == Entry(m0, r, v);
    }
    forall r, v: nat, depth: nat | IsRoot(t0, r) && v < VPN_LIMIT ensures WalkKept(m0, m2, r, v, depth) {
      assert WalkKept(m0, m1, r, v, depth) && WalkKept(m1, m2, r, v, depth);
    }
  }

  // New tables are hung under entries with these rights: together with them, the upper entries allow on
  // the way to each page what they allowed before.
  predicate UpperAllows(mem: Memory, mem': Memory, fl: Rights, r: nat, v: nat) {
    Both(UpperRights(mem', r, v), fl) == Both(UpperRights(mem, r, v), fl)
  }

  ghost predicate TablesAllow(mem: Memory, mem': Memory, tab: Tables, fl: Rights) {
    forall r, v: nat {:trigger UpperAllows(mem, mem', fl, r, v)} ::
      IsRoot(tab, r) && v < VPN_LIMIT ==> UpperAllows(mem, mem', fl, r, v)
  }

  lemma {:induction false} AllowRefl(mem: Memory, tab: Tables, fl: Rights)
    ensures TablesAllow(mem, mem, tab, fl)
  {
  }

  lemma {:induction false} AllowTrans(m0: Memory, t0: Tables, m1: Memory, t1: Tables, m2: Memory, fl: Rights)
    requires TablesAllow(m0, m1, t0, fl) && TablesAllow(m1, m2, t1, fl) && forall r :: IsRoot(t0, r) ==> IsRoot(t1, r)
    ensures TablesAllow(m0, m2, t0, fl)
  {
    hide UpperRights, Both;
    forall r, v: nat | IsRoot(t0, r) && v < VPN_LIMIT ensures UpperAllows(m0, m2, fl, r, v) {
      assert UpperAllows(m0, m1, fl, r, v) && UpperAllows(m1, m2, fl, r, v);
    }
  }

  lemma {:induction false} InsertAllows(mem: Memory, tab: Tables, kroot: nat, g: nat, i: nat, nf: nat, e: Word)
    requires CanInsert(mem, tab, kroot, g, i, nf, e)
    ensures TablesAllow(mem, InsertedMem(mem, g, i, nf, e), tab, RightsOf(e))
  {
    hide TableWf, TableAt, UpperTo, RightsOf, Both;
    forall r, v: nat | IsRoot(tab, r) && v < VPN_LIMIT
      ensures UpperAllows(mem, InsertedMem(mem, g, i, nf, e), RightsOf(e), r, v)
    {
      InsertWalk(mem, tab, kroot, g, i, nf, e, r, v, 3);
    }
  }

  // Entries with all rights take none away, and then no rights at all change.
  lemma {:induction false} AllowsAll(mem: Memory, mem': Memory, tab: Tables, fl: Rights)
    requires TablesAllow(mem, mem', tab, ALL_RIGHTS)
    ensures TablesAllow(mem, mem', tab, fl)
    ensures forall r, v: nat :: IsRoot(tab, r) && v < VPN_LIMIT ==> UpperRights(mem', r, v) == UpperRights(mem, r, v)
  {
    hide UpperRights;
    forall r, v: nat | IsRoot(tab, r) && v < VPN_LIMIT
      ensures UpperAllows(mem, mem', fl, r, v) && UpperRights(mem', r, v) == UpperRights(mem, r, v)
    {
      assert UpperAllows(mem, mem', ALL_RIGHTS, r, v);
    }
  }

  // While the tables of a space are not written, the upper entries of its user half stay.
  lemma {:induction false} UpperStays(mem: Memory, mem': Memory, tab: Tables, kroot: nat, r: nat, v: nat, depth: nat)
    requires TableWf(mem, tab, kroot) && IsRoot(tab, r) && r != kroot && v < USER_LIMIT && depth <= 3
    requires |mem'| == |mem| && forall g :: g in tab && tab[g].root == r && g < |mem| ==> mem'[g] == mem[g]
    ensures TableAt(mem', r, v, depth) == TableAt(mem, r, v, depth)
    ensures UpperTo(mem', r, v, depth) == UpperTo(mem, r, v, depth)
  {
    hide TableWf, Up, Idx, RightsOf, Both;
    if depth > 0 {
      UpperStays(mem, mem', tab, kroot, r, v, depth - 1);
      if TableAt(mem, r, v, depth - 1) != None {
        WalkMeetsTables(mem, tab, kroot, r, v, depth - 1);
        Linked(mem, tab, kroot, TableAt(mem, r, v, depth - 1).value);
        Linked(mem, tab, kroot, r);
      }
    }
  }

  // A page that stays mapped keeps its rights, the one just written apart.
  predicate RightsKept(mem: Memory, mem': Memory, kroot: nat, root: nat, v: nat, s: nat, u: nat) {
    Present(Entry(mem, s, u)) && !(u == v && Home(kroot, s, u) == Home(kroot, root, v)) ==>
      PageRights(mem', s, u) == PageRights(mem, s, u)
  }

  ghost predicate OtherRightsKept(mem: Memory, mem': Memory, tab: Tables, kroot: nat, root: nat, v: nat) {
    forall s, u: nat {:trigger RightsKept(mem, mem', kroot, root, v, s, u)} ::
      IsRoot(tab, s) && u < VPN_LIMIT ==> RightsKept(mem, mem', kroot, root, v, s, u)
  }

  lemma {:induction false} MappedKeepsRights(mem: Memory, mem': Memory, tab: Tables, kroot: nat, root: nat, v: nat,
                                             e: Word)
    requires WalksKept(mem, mem', tab) && (FlatUpdate(mem, mem', tab, kroot, root, v, e) || SameEntries(mem, mem', tab))
    ensures OtherRightsKept(mem, mem', tab, kroot, root, v)
  {
    hide WalksKept, UpperRights, Entry, Both, RightsOf;
    forall s, u: nat | IsRoot(tab, s) && u < VPN_LIMIT ensures RightsKept(mem, mem', kroot, root, v, s, u) {
      if Present(Entry(mem, s, u)) {
        MappedHasTables(mem, s, u);
        MappedKeepsUpper(mem, mem', tab, s, u);
      }
    }
  }

  // A mapped page has all its tables, so it keeps its rights when they are kept.
  lemma {:induction false} MappedKeepsUpper(mem: Memory, mem': Memory, tab: Tables, r: nat, v: nat)
    requires WalksKept(mem, mem', tab) && IsRoot(tab, r) && v < VPN_LIMIT && TableAt(mem, r, v, 3) != None
    ensures UpperRights(mem', r, v) == UpperRights(mem, r, v)
  {
    hide TableAt, UpperTo;
    assert WalkKept(mem, mem', r, v, 3);
  }

  lemma MappedHasTables(mem: Memory, r: nat, v: nat)
    requires Entry(mem, r, v) != 0
    ensures TableAt(mem, r, v, 3) != None
  {
  }

  lemma WalkStep(mem: Memory, root: nat, v: nat, depth: nat, g: nat)
    requires depth < 3 && TableAt(mem, root, v, depth) == Some(g)
    ensures TableAt(mem, root, v, depth + 1) ==
            if Present(Read(mem, g, Idx(v, depth))) then Some(FrameOf(Read(mem, g, Idx(v, depth)))) else None
  {
  }

  lemma AtMostThree(mem: Memory, root: nat, v: nat)
    ensures Missing(mem, root, v) <= 3
  {
  }

  ghost predicate EmptyTable(mem: Memory, g: nat) {
    forall j :: 0 <= j < 512 ==> Read(mem, g, j) == 0
  }

  lemma MissingEnds(mem: Memory, root: nat, v: nat)
    ensures Missing(mem, root, v) == MissingBelow(mem, root, v, 0)
    ensures MissingBelow(mem, root, v, 3) == 0
    ensures TableAt(mem, root, v, 0) == Some(root)
  {
  }

  // What a missing or empty table at depth + 1 means for the count of missing tables.
  lemma MissingStep(mem: Memory, root: nat, v: nat, depth: nat)
    requires depth < 3
    ensures TableAt(mem, root, v, depth + 1) == None ==> MissingBelow(mem, root, v, depth) == 3 - depth
    ensures TableAt(mem, root, v, depth + 1) != None ==>
              MissingBelow(mem, root, v, depth) == MissingBelow(mem, root, v, depth + 1)
    ensures TableAt(mem, root, v, depth + 1) != None && EmptyTable(mem, TableAt(mem, root, v, depth + 1).value) ==>
              MissingBelow(mem, root, v, depth + 1) == 2 - depth
  {
    if depth < 2 && TableAt(mem, root, v, depth + 1) != None {
      WalkStep(mem, root, v, depth + 1, TableAt(mem, root, v, depth + 1).value);
    }
  }

  // ---- Who may map what ----

  // The slot of the kernel's PML4 is filled, or no other PML4 has copied it yet.
  ghost predicate SlotReady(mem: Memory, tab: Tables, kroot: nat, i: nat) {
    Present(Read(mem, kroot, i)) || forall r :: IsRoot(tab, r) ==> r == kroot
  }

  // Who may map page v in root: user pages, or kernel pages through the kernel's PML4.
  ghost predicate MayMap(mem: Memory, tab: Tables, kroot: nat, root: nat, v: nat) {
    && IsRoot(tab, root) && v < VPN_LIMIT
    && (v >= USER_LIMIT ==> root == kroot && SlotReady(mem, tab, kroot, Idx(v, 0)))
  }

  // On the way to a page it may map, a space only creates tables of its own.
  lemma {:induction false} MayDescend(mem: Memory, tab: Tables, kroot: nat, root: nat, v: nat, depth: nat, g: nat)
    requires TableWf(mem, tab, kroot) && MayMap(mem, tab, kroot, root, v)
    requires depth <= 3 && TableAt(mem, root, v, depth) == Some(g)
    ensures g in tab && tab[g].depth == depth && tab[g].root == root
    ensures depth < 3 ==> OwnsIndex(tab[g], kroot, Idx(v, depth))
    ensures depth < 3 && g == kroot && Idx(v, depth) >= 256 ==> SlotReady(mem, tab, kroot, Idx(v, depth))
  {
    hide TableWf;
    WalkMeetsTables(mem, tab, kroot, root, v, depth);
    Linked(mem, tab, kroot, g);
    Linked(mem, tab, kroot, kroot);
    UpValues(v);
  }

  lemma {:induction false} WalkPrefix(mem: Memory, root: nat, v: nat, depth: nat, deeper: nat)
    requires depth <= deeper <= 3 && TableAt(mem, root, v, deeper) != None
    ensures TableAt(mem, root, v, depth) != None
    decreases deeper
  {
    if depth < deeper {
      WalkPrefix(mem, root, v, depth, deeper - 1);
    }
  }

  lemma SlotFilled(mem: Memory, root: nat, v: nat, depth: nat)
    requires 1 <= depth <= 3 && TableAt(mem, root, v, depth) != None
    ensures TableAt(mem, root, v, 1) != None && Present(Read(mem, root, Idx(v, 0)))
  {
    if depth > 1 {
      SlotFilled(mem, root, v, depth - 1);
    }
  }

  lemma {:induction false} MayMapKept(mem: Memory, tab: Tables, mem': Memory, tab': Tables, kroot: nat, root: nat,
                                      s: nat, v: nat)
    requires MayMap(mem, tab, kroot, s, v)
    requires IsRoot(tab, kroot) && TabGrows(tab, tab', root) && WalksKept(mem, mem', tab)
    ensures MayMap(mem', tab', kroot, s, v)
  {
    forall r | IsRoot(tab', r) ensures IsRoot(tab, r) {
      assert r in tab ==> tab'[r] == tab[r];
    }
    if v >= USER_LIMIT && Present(Read(mem, kroot, Idx(v, 0))) {
      WalkStep(mem, kroot, v, 0, kroot);
      assert WalkKept(mem, mem', kroot, v, 1);
      SlotFilled(mem', kroot, v, 1);
    }
  }

  // Creating tables and then writing a leaf: the flat view changes as by the write alone.
  lemma {:induction false} GrowThenWrite(m0: Memory, t0: Tables, m1: Memory, t1: Tables, m2: Memory, kroot: nat,
                                         root: nat, v: nat, e: Word)
    requires Grown(m0, t0, m1, t1, root)
    requires FlatUpdate(m1, m2, t1, kroot, root, v, e)
    requires WalksKept(m1, m2, t1) && MemGrows(m1, m2, t1, t1, root)
    ensures FlatUpdate(m0, m2, t0, kroot, root, v, e)
    ensures WalksKept(m0, m2, t0) && MemGrows(m0, m2, t0, t1, root)
  {
    hide TableAt, Entry;
    assert forall r :: IsRoot(t0, r) ==> IsRoot(t1, r);
    forall s, u: nat | IsRoot(t0, s) && u < VPN_LIMIT
      ensures Entry(m2, s, u) == if u == v && Home(kroot, s, u) == Home(kroot, root, v) then e else Entry(m0, s, u)
    {
      assert Entry(m1, s, u) == Entry(m0, s, u);
    }
    forall r, u: nat, depth: nat | IsRoot(t0, r) && u < VPN_LIMIT ensures WalkKept(m0, m2, r, u, depth) {
      assert WalkKept(m0, m1, r, u, depth) && WalkKept(m1, m2, r, u, depth);
    }
  }
}
