/** User memory byte by byte, as the processor sees it through CR3: what memset and memcpy to user
    addresses do once the kernel has switched page tables (kernel/src/proc/proc.c:192-226).
  */
module UserMem {
  import opened Common
  import opened Bytes
  import opened Pte
  import Pmm
  import opened PageTable
  import opened Machine
  import opened MapPages
  import opened Confine
  import opened Heap
  import opened HeapSpec
  import IntrusiveList
  import opened Vmm

  const USER_BYTES: nat := USER_LIMIT * PAGE_SIZE

  function PageOf(a: nat): nat { a / PAGE_SIZE }

  function WordAt(a: nat): (i: nat)
    ensures i < 512
  {
    a % PAGE_SIZE / 8
  }

  // The byte at address a of the space with root `root`; None is a page fault.
  function UserByte(mem: Memory, root: nat, a: nat): Option<Byte> {
    var e := Entry(mem, root, PageOf(a));
    if Present(e) then Some(ByteOf(Read(mem, FrameOf(e), WordAt(a)), a % 8)) else None
  }

  // A write to page v passes: the page is mapped, and all entries on the way allow writes. This holds for
  // the kernel too, since the boot loader hands over with CR0.WP set.
  predicate MayStore(mem: Memory, root: nat, v: nat) {
    Present(Entry(mem, root, v)) && PageRights(mem, root, v).write
  }

  // CR3, as a frame number.
  class Cpu {
    var cr3: nat

    constructor (root: nat)
      ensures cr3 == root
    {
      cr3 := root;
    }
  }

  lemma SetByteWord(w: Word, k: nat, b: Byte)
    requires k < 8
    ensures SetByte(w, k, b) < WORD_LIMIT
  {
    EightBytes();
    SetByteFits(w, k, b, 8);
  }

  // Addresses in different places of a page have different words or bytes.
  lemma PlacesDiffer(a: nat, b: nat)
    requires PageOf(a) == PageOf(b) && a != b
    ensures WordAt(a) != WordAt(b) || a % 8 != b % 8
  {
    AddressParts(a);
    AddressParts(b);
  }

  lemma AddressParts(a: nat)
    ensures a == PageOf(a) * PAGE_SIZE + WordAt(a) * 8 + a % 8
  {
    var q, r := a / PAGE_SIZE, a % PAGE_SIZE;
    assert a == 8 * (512 * q + r / 8) + r % 8;
    assert a % 8 == r % 8;
  }

  // ---- Writing ----

  // What writing bytes into pages of the space leaves behind.
  ghost predicate OnlyPages(m0: Memory, m1: Memory, pages: Pages, root: nat, lo: nat, hi: nat) {
    |m1| == |m0|
    && forall g: nat :: g < |m0| && m1[g] != m0[g] ==> g in pages && pages[g].root == root && lo <= pages[g].vpn < hi
  }

  ghost predicate Written(m0: Memory, m1: Memory, root: nat, va: nat, data: seq<Byte>) {
    forall a: nat {:trigger UserByte(m1, root, a)} :: a < USER_BYTES ==>
      UserByte(m1, root, a) == if va <= a < va + |data| then Some(data[a - va]) else UserByte(m0, root, a)
  }

  lemma WrittenAt(m0: Memory, m1: Memory, root: nat, va: nat, data: seq<Byte>, a: nat)
    requires Written(m0, m1, root, va, data) && a < USER_BYTES
    ensures UserByte(m1, root, a) == if va <= a < va + |data| then Some(data[a - va]) else UserByte(m0, root, a)
  {
  }

  // One byte through the page tables; false for a page fault.
  method StoreByte(k: KernelHeap, cpu: Cpu, a: nat, b: Byte) returns (ok: bool)
    requires k.Valid() && IsRoot(k.m.tab, cpu.cr3) && cpu.cr3 != k.m.kroot && a < USER_BYTES
    modifies k.m`mem
    ensures k.Valid()
    ensures ok <==> MayStore(old(k.m.mem), cpu.cr3, PageOf(a))
    ensures !ok ==> k.m.mem == old(k.m.mem)
    ensures ok ==> Written(old(k.m.mem), k.m.mem, cpu.cr3, a, [b])
    ensures SameWalks(old(k.m.mem), k.m.mem, k.m.tab)
    ensures OnlyPages(old(k.m.mem), k.m.mem, k.m.pages, cpu.cr3, PageOf(a), PageOf(a) + 1)
  {
    hide TableWf, PagesWf, Entry, Tiles, View, IntrusiveList.IsRing, Up, Idx, Pmm.CountFree, Pmm.BitsOf, WindowMapped,
      TableAt, SameEntries, SlotReady, FrameOf, ByteOf, SetByte, UpperRights, RightsOf, TablesAllow;
    ghost var m0, kroot, root := k.m.mem, k.m.kroot, cpu.cr3;
    var v := PageOf(a);
    var e := Entry(k.m.mem, cpu.cr3, v);
    SelfSame(m0, k.m.tab);
    if !Present(e) || !PageRights(k.m.mem, cpu.cr3, v).write {
      return false;
    }
    k.m.KernelIsRoot();
    UserPageIsOwned(kroot, root, v);
    ListedPage(m0, k.m.tab, k.m.pages, kroot, root, v);
    HeldPage(m0, k.m.tab, k.m.pages, kroot, FrameOf(e));
    var f, i := FrameOf(e), WordAt(a);
    SetByteWord(k.m.mem[f][i], a % 8, b);
    k.m.mem := WriteWord(k.m.mem, f, i, SetByte(k.m.mem[f][i], a % 8, b));
    DataWrite(m0, k.m.mem, k.m.tab, kroot);
    DataWalks(m0, k.m.mem, k.m.tab, kroot);
    SelfGrows(k.m.tab, kroot);
    PagesKept(m0, k.m.tab, k.m.mem, k.m.tab, k.m.pages, kroot, kroot);
    WindowSame(m0, k.m.mem, k.m.tab, kroot, k.PageCount());
    SlotStays(m0, k.m.mem, k.m.tab, kroot);
    StoreReads(m0, k.m.mem, k.m.tab, k.m.pages, kroot, root, a, b);
    ok := true;
  }

  // Every page translates as before, with the same rights.
  ghost predicate SameWalks(m0: Memory, m1: Memory, tab: Tables) {
    SameEntries(m0, m1, tab) && TablesAllow(m0, m1, tab, ALL_RIGHTS)
  }

  lemma {:induction false} SelfSame(m: Memory, tab: Tables)
    ensures SameWalks(m, m, tab)
  {
    hide Entry, UpperRights;
  }

  lemma {:induction false} SlotStays(m0: Memory, m1: Memory, tab: Tables, kroot: nat)
    requires SameOnTables(m0, m1, tab) && SlotReady(m0, tab, kroot, HEAP_SLOT) && kroot in tab
    ensures SlotReady(m1, tab, kroot, HEAP_SLOT)
  {
  }

  lemma {:induction false} StoreReads(m0: Memory, m1: Memory, tab: Tables, pages: Pages, kroot: nat, root: nat, a: nat,
                                      b: Byte)
    requires PagesWf(m0, tab, pages, kroot) && SameEntries(m0, m1, tab) && IsRoot(tab, root) && root != kroot
              && a < USER_BYTES
    requires Present(Entry(m0, root, PageOf(a)))
    requires
      var f := FrameOf(Entry(m0, root, PageOf(a)));
      && f < |m0| && SetByte(m0[f][WordAt(a)], a % 8, b) < WORD_LIMIT
      && m1 == WriteWord(m0, f, WordAt(a), SetByte(m0[f][WordAt(a)], a % 8, b))
    ensures Written(m0, m1, root, a, [b])
  {
    hide PagesWf, Entry, FrameOf, ByteOf, SetByte;
    var f := FrameOf(Entry(m0, root, PageOf(a)));
    UserPageIsOwned(kroot, root, PageOf(a));
    ListedPage(m0, tab, pages, kroot, root, PageOf(a));
    forall c: nat | c < USER_BYTES
      ensures UserByte(m1, root, c) == if a <= c < a + 1 then Some(b) else UserByte(m0, root, c)
    {
      UserPageIsOwned(kroot, root, PageOf(c));
      var e := Entry(m0, root, PageOf(c));
      assert Entry(m1, root, PageOf(c)) == e;
      if Present(e) {
        ListedPage(m0, tab, pages, kroot, root, PageOf(c));
        if PageOf(c) == PageOf(a) {
          SetByteReads(m0[f][WordAt(a)], a % 8, b, c % 8);
          if c != a { PlacesDiffer(a, c); }
        }
      }
    }
  }

  // ---- Bulk writes ----

  lemma WrittenMore(m0: Memory, m1: Memory, m2: Memory, root: nat, va: nat, data: seq<Byte>, b: Byte)
    requires Written(m0, m1, root, va, data) && Written(m1, m2, root, va + |data|, [b])
    ensures Written(m0, m2, root, va, data + [b])
  {
    hide UserByte;
    forall a: nat | a < USER_BYTES
      ensures UserByte(m2, root, a) ==
              if va <= a < va + |data + [b]| then Some((data + [b])[a - va]) else UserByte(m0, root, a)
    {
      WrittenAt(m1, m2, root, va + |data|, [b], a);
      WrittenAt(m0, m1, root, va, data, a);
    }
  }

  lemma PageInside(va: nat, size: nat, a: nat)
    requires size > 0 && va <= a < va + size
    ensures FirstPage(va) <= PageOf(a) < FirstPage(va) + PageSpan(va, size)
  {
  }

  lemma {:induction false} OnlyPagesMore(m0: Memory, m1: Memory, m2: Memory, pages: Pages, root: nat, lo: nat, hi: nat,
                                         v: nat)
    requires OnlyPages(m0, m1, pages, root, lo, hi) && OnlyPages(m1, m2, pages, root, v, v + 1) && lo <= v < hi
    ensures OnlyPages(m0, m2, pages, root, lo, hi)
  {
  }

  lemma {:induction false} WalksTrans(m0: Memory, m1: Memory, m2: Memory, tab: Tables)
    requires SameWalks(m0, m1, tab) && SameWalks(m1, m2, tab)
    ensures SameWalks(m0, m2, tab)
  {
    hide Entry, UpperRights;
    AllowTrans(m0, tab, m1, tab, m2, ALL_RIGHTS);
  }

  lemma {:induction false} NothingWritten(m: Memory, tab: Tables, pages: Pages, root: nat, va: nat, lo: nat, hi: nat)
    ensures Written(m, m, root, va, []) && SameWalks(m, m, tab) && OnlyPages(m, m, pages, root, lo, hi)
  {
    hide UpperRights;
  }

  function Zeros(n: nat): (z: seq<Byte>)
    ensures |z| == n && forall i :: 0 <= i < n ==> z[i] == 0
  {
    seq(n, i => 0)
  }

  // memcpy to user addresses [va, va + |data|); false on a page fault.
  method CopyToUser(k: KernelHeap, cpu: Cpu, va: nat, data: seq<Byte>, ghost size: nat) returns (ok: bool)
    requires k.Valid() && IsRoot(k.m.tab, cpu.cr3) && cpu.cr3 != k.m.kroot
    requires |data| <= size && va + size <= USER_BYTES
    modifies k.m`mem
    ensures k.Valid()
    ensures SameWalks(old(k.m.mem), k.m.mem, k.m.tab)
    ensures OnlyPages(old(k.m.mem), k.m.mem, k.m.pages, cpu.cr3, FirstPage(va), FirstPage(va) + PageSpan(va, size))
    ensures ok ==> Written(old(k.m.mem), k.m.mem, cpu.cr3, va, data)
    ensures !ok ==>
              exists a: nat {:trigger PageOf(a)} ::
                va <= a < va + |data| && !MayStore(old(k.m.mem), cpu.cr3, PageOf(a))
  {
    hide Written, SameWalks, OnlyPages, Entry, MayStore, FirstPage, PageSpan, PageOf, Tiles, View, TableWf, PagesWf,
      Pmm.BitsOf, Pmm.CountFree, WindowMapped, SlotReady;
    ghost var m0, tab, pages, root := k.m.mem, k.m.tab, k.m.pages, cpu.cr3;
    ghost var lo, hi := FirstPage(va), FirstPage(va) + PageSpan(va, size);
    NothingWritten(m0, tab, pages, root, va, lo, hi);
    assert data[..0] == [];
    var i := 0;
    while i < |data|
      invariant i <= |data| && k.Valid()
      invariant Written(m0, k.m.mem, root, va, data[..i]) && SameWalks(m0, k.m.mem, tab)
      invariant OnlyPages(m0, k.m.mem, pages, root, lo, hi)
    {
      ghost var m1 := k.m.mem;
      ok := StoreByte(k, cpu, va + i, data[i]);
      PageInside(va, size, va + i);
      if !ok {
        StoreSame(m0, m1, tab, root, va + i);
        return;
      }
      WrittenMore(m0, m1, k.m.mem, root, va, data[..i], data[i]);
      WalksTrans(m0, m1, k.m.mem, tab);
      OnlyPagesMore(m0, m1, k.m.mem, pages, root, lo, hi, PageOf(va + i));
      assert data[..i + 1] == data[..i] + [data[i]];
      i := i + 1;
    }
    assert data[..i] == data;
    ok := true;
  }

  // memset(va, 0, n)
  method ZeroUser(k: KernelHeap, cpu: Cpu, va: nat, n: nat) returns (ok: bool)
    requires k.Valid() && IsRoot(k.m.tab, cpu.cr3) && cpu.cr3 != k.m.kroot && va + n <= USER_BYTES
    modifies k.m`mem
    ensures k.Valid()
    ensures SameWalks(old(k.m.mem), k.m.mem, k.m.tab)
    ensures OnlyPages(old(k.m.mem), k.m.mem, k.m.pages, cpu.cr3, FirstPage(va), FirstPage(va) + PageSpan(va, n))
    ensures ok ==> Written(old(k.m.mem), k.m.mem, cpu.cr3, va, Zeros(n))
    ensures !ok ==>
              exists a: nat {:trigger PageOf(a)} ::
                va <= a < va + n && !MayStore(old(k.m.mem), cpu.cr3, PageOf(a))
  {
    ok := CopyToUser(k, cpu, va, Zeros(n), n);
  }

  lemma {:induction false} StoreSame(m0: Memory, m1: Memory, tab: Tables, root: nat, a: nat)
    requires SameWalks(m0, m1, tab) && IsRoot(tab, root) && a < USER_BYTES
    ensures MayStore(m1, root, PageOf(a)) == MayStore(m0, root, PageOf(a))
  {
    hide Entry, UpperRights, RightsOf;
    AllowsAll(m0, m1, tab, ALL_RIGHTS);
  }
}
