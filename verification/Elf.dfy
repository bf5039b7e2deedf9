/** Loading a program: load_elf (kernel/src/proc/proc.c:171-232) over the file layout of the
    System V gABI, chapters 4 and 5 (kernel/src/lib/elf.h:14-41).
  */
module Elf {
  import opened Common
  import opened Bytes
  import opened Pte
  import Pmm
  import opened PageTable
  import opened Machine
  import opened MapPages
  import opened Confine
  import opened Heap
  import opened HeapSpec
  import opened HeapUse
  import IntrusiveList
  import opened Vmm
  import opened UserMem

  const EHDR_SIZE: nat := 64
  const PHDR_SIZE: nat := 56
  const PT_LOAD: nat := 1
  const VM_READ: nat := 1
  const VM_EXEC: nat := 4

  // ---- The file ----

  // The little-endian number of n bytes at offset `at`.
  function Num(file: ByteString, at: nat, n: nat): nat
    requires at + n <= |file|
  {
    UnLE(file[at..at + n])
  }

  predicate Magic(file: ByteString)
    requires |file| >= EHDR_SIZE
  {
    file[0] == 0x7F as char && file[1] == 'E' && file[2] == 'L' && file[3] == 'F'
  }

  // e_entry
  function EntryPoint(file: ByteString): nat
    requires |file| >= EHDR_SIZE
  {
    Num(file, 24, 8)
  }

  datatype Segment = Segment(load: bool, exec: bool, offset: nat, vaddr: nat, filesz: nat, memsz: nat)

  predicate HeadersFit(file: ByteString) {
    |file| >= EHDR_SIZE && Num(file, 32, 8) + PHDR_SIZE * Num(file, 56, 2) <= |file|
  }

  // Program header i: p_type, p_flags & PF_X, p_offset, p_vaddr, p_filesz, p_memsz.
  function SegmentAt(file: ByteString, i: nat): Segment
    requires HeadersFit(file) && i < Num(file, 56, 2)
  {
    var at := Num(file, 32, 8) + PHDR_SIZE * i;
    Segment(Num(file, at, 4) == PT_LOAD, Num(file, at + 4, 4) % 2 == 1,
            Num(file, at + 8, 8), Num(file, at + 16, 8), Num(file, at + 32, 8), Num(file, at + 40, 8))
  }

  function Segments(file: ByteString): seq<Segment>
    requires HeadersFit(file)
  {
    seq(Num(file, 56, 2), i requires 0 <= i < Num(file, 56, 2) => SegmentAt(file, i))
  }

  // ---- The two header structs, field by field ----

  datatype Field = Field(value: nat, width: nat)

  predicate Fitting(fs: seq<Field>) { forall k :: 0 <= k < |fs| ==> fs[k].value < Pow256(fs[k].width) }

  // Where field k of a packed struct starts, and the bytes of its first n fields.
  function OffsetOf(fs: seq<Field>, k: nat): nat
    requires k <= |fs|
  {
    if k == 0 then 0 else OffsetOf(fs, k - 1) + fs[k - 1].width
  }

  function Laid(fs: seq<Field>, n: nat): (r: string)
    requires n <= |fs|
    ensures |r| == OffsetOf(fs, n)
  {
    if n == 0 then "" else Laid(fs, n - 1) + LE(fs[n - 1].value, fs[n - 1].width)
  }

  // A read of the field's width at its offset gives the field.
  lemma {:induction false} FieldReads(file: ByteString, at: nat, fs: seq<Field>, n: nat, k: nat)
    requires k < n <= |fs| && fs[k].value < Pow256(fs[k].width)
    requires at + OffsetOf(fs, n) <= |file| && file[at..at + OffsetOf(fs, n)] == Laid(fs, n)
    ensures at + OffsetOf(fs, k) + fs[k].width <= |file|
    ensures Num(file, at + OffsetOf(fs, k), fs[k].width) == fs[k].value
    decreases n
  {
    hide LE, UnLE, Pow256;
    var m, all := OffsetOf(fs, n - 1), file[at..at + OffsetOf(fs, n)];
    if k == n - 1 {
      assert file[at + m..at + m + fs[k].width] == all[m..] == LE(fs[k].value, fs[k].width);
      WordRoundTrip(fs[k].value, fs[k].width);
    } else {
      assert file[at..at + m] == all[..m] == Laid(fs, n - 1);
      FieldReads(file, at, fs, n - 1, k);
    }
  }

  datatype FileHeader = FileHeader(kind: nat, machine: nat, version: nat, entry: nat, phoff: nat, shoff: nat,
    flags: nat, ehsize: nat, phentsize: nat, phnum: nat, shentsize: nat, shnum: nat, shstrndx: nat)

  // Elf64_Ehdr behind its 16 bytes e_ident.
  function FileFields(h: FileHeader): seq<Field> {
    [Field(h.kind, 2), Field(h.machine, 2), Field(h.version, 4), Field(h.entry, 8), Field(h.phoff, 8),
     Field(h.shoff, 8), Field(h.flags, 4), Field(h.ehsize, 2), Field(h.phentsize, 2), Field(h.phnum, 2),
     Field(h.shentsize, 2), Field(h.shnum, 2), Field(h.shstrndx, 2)]
  }

  datatype ProgHeader = ProgHeader(kind: nat, flags: nat, offset: nat, vaddr: nat, paddr: nat, filesz: nat,
    memsz: nat, align: nat)

  // Elf64_Phdr
  function ProgFields(p: ProgHeader): seq<Field> {
    [Field(p.kind, 4), Field(p.flags, 4), Field(p.offset, 8), Field(p.vaddr, 8), Field(p.paddr, 8),
     Field(p.filesz, 8), Field(p.memsz, 8), Field(p.align, 8)]
  }

  // The structs lie in the file: the file header at its start, the program headers at e_phoff.
  predicate HeadersAt(file: ByteString, h: FileHeader, ps: seq<ProgHeader>) {
    && |file| >= EHDR_SIZE && Fitting(FileFields(h)) && h.phnum == |ps| && h.phoff + PHDR_SIZE * |ps| <= |file|
    && file[16..EHDR_SIZE] == Laid(FileFields(h), 13)
    && forall i :: 0 <= i < |ps| ==>
         Fitting(ProgFields(ps[i]))
         && file[h.phoff + PHDR_SIZE * i..h.phoff + PHDR_SIZE * i + PHDR_SIZE] == Laid(ProgFields(ps[i]), 8)
  }

  // load_elf reads the fields of these structs.
  lemma {:induction false} HeadersRead(file: ByteString, h: FileHeader, ps: seq<ProgHeader>)
    requires HeadersAt(file, h, ps)
    ensures HeadersFit(file) && EntryPoint(file) == h.entry && |Segments(file)| == |ps|
    ensures forall i :: 0 <= i < |ps| ==>
              var p := ps[i];
              Segments(file)[i] == Segment(p.kind == PT_LOAD, p.flags % 2 == 1, p.offset, p.vaddr, p.filesz, p.memsz)
  {
    hide Num, Laid, LE, Fitting, Pow256;
    FileHeaderReads(file, h);
    forall i | 0 <= i < |ps|
      ensures var p := ps[i];
              SegmentAt(file, i) == Segment(p.kind == PT_LOAD, p.flags % 2 == 1, p.offset, p.vaddr, p.filesz, p.memsz)
    {
      ProgHeaderReads(file, h.phoff + PHDR_SIZE * i, ps[i]);
    }
  }

  lemma FileOffsets(fs: seq<Field>)
    requires |fs| == 13 && fs[0].width == fs[1].width == 2 && fs[2].width == 4 && fs[6].width == 4
    requires fs[3].width == fs[4].width == fs[5].width == 8
    requires fs[7].width == fs[8].width == fs[9].width == fs[10].width == fs[11].width == fs[12].width == 2
    ensures OffsetOf(fs, 3) == 8 && OffsetOf(fs, 4) == 16 && OffsetOf(fs, 9) == 40 && OffsetOf(fs, 13) == 48
  {
    assert OffsetOf(fs, 1) == 2 && OffsetOf(fs, 2) == 4 && OffsetOf(fs, 3) == 8 && OffsetOf(fs, 4) == 16;
    assert OffsetOf(fs, 5) == 24 && OffsetOf(fs, 6) == 32 && OffsetOf(fs, 7) == 36 && OffsetOf(fs, 8) == 38;
    assert OffsetOf(fs, 9) == 40 && OffsetOf(fs, 10) == 42 && OffsetOf(fs, 11) == 44 && OffsetOf(fs, 12) == 46;
  }

  lemma ProgOffsets(fs: seq<Field>)
    requires |fs| == 8 && fs[0].width == fs[1].width == 4
    requires forall k :: 2 <= k < 8 ==> fs[k].width == 8
    ensures OffsetOf(fs, 0) == 0 && OffsetOf(fs, 1) == 4 && OffsetOf(fs, 2) == 8 && OffsetOf(fs, 3) == 16
    ensures OffsetOf(fs, 5) == 32 && OffsetOf(fs, 6) == 40 && OffsetOf(fs, 8) == 56
  {
    assert OffsetOf(fs, 1) == 4 && OffsetOf(fs, 2) == 8 && OffsetOf(fs, 3) == 16 && OffsetOf(fs, 4) == 24;
    assert OffsetOf(fs, 5) == 32 && OffsetOf(fs, 6) == 40 && OffsetOf(fs, 7) == 48;
  }

  lemma {:induction false} FileHeaderReads(file: ByteString, h: FileHeader)
    requires |file| >= EHDR_SIZE && Fitting(FileFields(h))
    requires file[16..EHDR_SIZE] == Laid(FileFields(h), 13)
    ensures Num(file, 24, 8) == h.entry && Num(file, 32, 8) == h.phoff && Num(file, 56, 2) == h.phnum
  {
    hide Num, Laid, LE, Pow256, OffsetOf;
    var fs := FileFields(h);
    FileOffsets(fs);
    FieldReads(file, 16, fs, 13, 3);
    FieldReads(file, 16, fs, 13, 4);
    FieldReads(file, 16, fs, 13, 9);
  }

  lemma {:induction false} ProgHeaderReads(file: ByteString, at: nat, p: ProgHeader)
    requires at + PHDR_SIZE <= |file| && Fitting(ProgFields(p)) && file[at..at + PHDR_SIZE] == Laid(ProgFields(p), 8)
    ensures Num(file, at, 4) == p.kind && Num(file, at + 4, 4) == p.flags && Num(file, at + 8, 8) == p.offset
    ensures Num(file, at + 16, 8) == p.vaddr && Num(file, at + 32, 8) == p.filesz && Num(file, at + 40, 8) == p.memsz
  {
    hide Num, Laid, LE, Pow256, OffsetOf;
    var fs := ProgFields(p);
    ProgOffsets(fs);
    FieldReads(file, at, fs, 8, 0);
    FieldReads(file, at, fs, 8, 1);
    FieldReads(file, at, fs, 8, 2);
    FieldReads(file, at, fs, 8, 3);
    FieldReads(file, at, fs, 8, 5);
    FieldReads(file, at, fs, 8, 6);
  }

  // A PT_LOAD segment lies in the file and in the user half.
  predicate Sound(file: ByteString, s: Segment) {
    s.load ==> s.filesz <= s.memsz && s.offset + s.filesz <= |file| && s.vaddr + s.memsz <= USER_BYTES
  }

  predicate Apart(s: Segment, t: Segment) {
    s.load && t.load && s.memsz > 0 && t.memsz > 0 ==>
      || FirstPage(s.vaddr) + PageSpan(s.vaddr, s.memsz) <= FirstPage(t.vaddr)
      || FirstPage(t.vaddr) + PageSpan(t.vaddr, t.memsz) <= FirstPage(s.vaddr)
  }

  ghost predicate AllSound(file: ByteString, ss: seq<Segment>) {
    && (forall i :: 0 <= i < |ss| ==> Sound(file, ss[i]))
    && (forall i, j :: 0 <= i < j < |ss| ==> Apart(ss[i], ss[j]))
  }

  // ---- One segment ----

  // The bytes of a loaded segment: the file's, then zeros.
  ghost predicate SegmentBytes(mem: Memory, root: nat, vaddr: nat, memsz: nat, data: seq<Byte>) {
    forall a: nat {:trigger UserByte(mem, root, a)} :: vaddr <= a < vaddr + memsz ==>
      UserByte(mem, root, a) == Some(if a - vaddr < |data| then data[a - vaddr] else 0)
  }

  // Bytes of user pages outside the range read as before.
  ghost predicate BytesKept(m0: Memory, m1: Memory, root: nat, start: nat, n: nat) {
    forall a: nat {:trigger UserByte(m1, root, a)} :: a < USER_BYTES && !(start <= PageOf(a) < start + n) ==>
      UserByte(m1, root, a) == UserByte(m0, root, a)
  }

  lemma ZeroThenCopy(m2: Memory, m3: Memory, m4: Memory, root: nat, vaddr: nat, memsz: nat, data: seq<Byte>)
    requires Written(m2, m3, root, vaddr, Zeros(memsz)) && Written(m3, m4, root, vaddr, data)
    requires |data| <= memsz && vaddr + memsz <= USER_BYTES
    ensures SegmentBytes(m4, root, vaddr, memsz, data)
  {
    hide UserByte;
    forall a: nat | vaddr <= a < vaddr + memsz
      ensures UserByte(m4, root, a) == Some(if a - vaddr < |data| then data[a - vaddr] else 0)
    {
      WrittenAt(m3, m4, root, vaddr, data, a);
      WrittenAt(m2, m3, root, vaddr, Zeros(memsz), a);
    }
  }

  // Pages of a range that was unmapped are new.
  lemma {:induction false} RangeIsNew(m1: Memory, t1: Tables, p1: Pages, p2: Pages, kroot: nat, root: nat, start: nat,
                                      n: nat, f: nat)
    requires PagesWf(m1, t1, p1, kroot) && RangeUnmapped(m1, root, start, n)
    requires forall g :: g in p1 ==> g in p2 && p2[g] == p1[g]
    requires f in p2 && p2[f].root == root && start <= p2[f].vpn < start + n
    ensures f !in p1
  {
    hide Entry;
    if f in p1 {
      HeldPage(m1, t1, p1, kroot, f);
      UnmappedAt(m1, root, start, n, p1[f].vpn);
      ZeroIsAbsent();
    }
  }

  // Mapping the range and writing into it changes only what belongs to the space.
  lemma {:induction false} WritingIsConfined(m1: Memory, t1: Tables, p1: Pages, m2: Memory, t2: Tables, p2: Pages,
                                             m4: Memory, kroot: nat, root: nat, start: nat, n: nat)
    requires Confined(m1, t1, p1, m2, t2, p2, kroot, root) && PagesWf(m1, t1, p1, kroot)
              && RangeUnmapped(m1, root, start, n)
    requires SameWalks(m2, m4, t2) && OnlyPages(m2, m4, p2, root, start, start + n)
    requires kroot in t2 && forall f :: f in p2 ==> f !in t2
    ensures Confined(m1, t1, p1, m4, t2, p2, kroot, root)
  {
    RightsCopy(m1, t1, p1, m2, t2, p2, m4, kroot, root);
    hide Entry, PagesWf, RangeUnmapped, Idx, HeapPage, UpperRights, RightsConfined, TablesAllow;
    forall i: nat | Present(Read(m1, kroot, i)) ensures Present(Read(m4, kroot, i)) {
      assert Present(Read(m2, kroot, i));
    }
    forall g: nat | g < |m2| && m4[g] != m2[g] ensures g in p2 && g !in p1 && g !in t2 {
      RangeIsNew(m1, t1, p1, p2, kroot, root, start, n, g);
    }
    forall s, v: nat | IsRoot(t1, s) && v < VPN_LIMIT ensures EntryConfined(m1, m4, root, s, v) {
      assert IsRoot(t2, s);
      assert EntryConfined(m1, m2, root, s, v);
    }
  }

  lemma {:induction false} OtherBytesKept(m1: Memory, t1: Tables, p1: Pages, m2: Memory, t2: Tables, p2: Pages,
                                          m4: Memory, kroot: nat, root: nat, start: nat, n: nat)
    requires Confined(m1, t1, p1, m2, t2, p2, kroot, root) && PagesWf(m1, t1, p1, kroot) && IsRoot(t1, root)
              && root != kroot
    requires KeptOutside(m1, m2, root, start, n)
    requires SameWalks(m2, m4, t2) && OnlyPages(m2, m4, p2, root, start, start + n)
    requires forall f :: f in p2 ==> f !in t2
    ensures BytesKept(m1, m4, root, start, n) && KeptOutside(m1, m4, root, start, n)
  {
    hide Entry, PagesWf, FrameOf, Confined, ByteOf, UpperRights;
    ConfinedRoot(m1, t1, p1, m2, t2, p2, kroot, root, root);
    AllowsAll(m2, m4, t2, ALL_RIGHTS);
    forall v: nat | v < USER_LIMIT && !(start <= v < start + n)
      ensures Entry(m4, root, v) == Entry(m1, root, v)
              && (Present(Entry(m1, root, v)) ==> UpperRights(m4, root, v) == UpperRights(m1, root, v))
    {
      assert Entry(m2, root, v) == Entry(m1, root, v);
    }
    forall a: nat | a < USER_BYTES && !(start <= PageOf(a) < start + n)
      ensures UserByte(m4, root, a) == UserByte(m1, root, a)
    {
      var v := PageOf(a);
      var e := Entry(m1, root, v);
      assert Entry(m4, root, v) == e;
      if Present(e) {
        var f := FrameOf(e);
        UserPageIsOwned(kroot, root, v);
        ListedPage(m1, t1, p1, kroot, root, v);
        HeldPage(m1, t1, p1, kroot, f);
        ConfinedPages(m1, t1, p1, m2, t2, p2, kroot, root, f);
      }
    }
  }

  lemma {:induction false} ConfinedPages(m1: Memory, t1: Tables, p1: Pages, m2: Memory, t2: Tables, p2: Pages,
                                         kroot: nat, root: nat, f: nat)
    requires Confined(m1, t1, p1, m2, t2, p2, kroot, root) && f in p1 && f < |m1|
    ensures f in p2 && p2[f] == p1[f] && |m2| == |m1|
    ensures f !in t2 ==> m2[f] == m1[f]
  {
  }

  lemma {:induction false} MappedIsPresent(mem: Memory, p0: Pages, root: nat, flags: nat, start: nat, n: nat)
    requires RangeMapped(mem, p0, root, flags, start, n) && flags % 2 == 1
    ensures forall v: nat :: start <= v < start + n ==> Present(Entry(mem, root, v))
  {
    hide Entry, FrameOf;
    forall v: nat | start <= v < start + n ensures Present(Entry(mem, root, v)) {
      assert MappedNew(mem, p0, root, flags, v);
    }
  }

  datatype SegmentResult = SegmentDone | SegmentFailed | SegmentHeapFault | SegmentPageFault

  // The body of the program header loop for one PT_LOAD segment. `taken` counts the frames the
  // kernel heap took for the VMA's block.
  method LoadSegment(k: KernelHeap, cpu: Cpu, mm: Mm, vaddr: nat, memsz: nat, exec: bool, data: seq<Byte>)
    returns (r: SegmentResult, ghost taken: nat)
    requires k.Valid() && IsRoot(k.m.tab, mm.root) && mm.root != k.m.kroot && cpu.cr3 == mm.root
    requires |data| <= memsz && vaddr + memsz <= USER_BYTES
    requires memsz > 0 ==> RangeUnmapped(k.m.mem, mm.root, FirstPage(vaddr), PageSpan(vaddr, memsz))
    modifies k`size, k`isFree, k`order, k`top, k.nodes, k.m`mem, k.m`tab, k.m`stray, k.m`failures, k.m`pages, k.m.pmm,
        k.m.pmm.bitmap
    modifies mm`vmas, mm`mapCount, mm`blocks
    ensures r == SegmentDone || r == SegmentFailed ==>
              && k.Valid() && old(k.m.stray) <= k.m.stray && IsRoot(k.m.tab, mm.root)
              && Confined(old(k.m.mem), old(k.m.tab), old(k.m.pages), k.m.mem, k.m.tab, k.m.pages, k.m.kroot, mm.root)
    ensures r == SegmentDone ==>
              && memsz > 0 && SegmentBytes(k.m.mem, mm.root, vaddr, memsz, data)
              && BytesKept(old(k.m.mem), k.m.mem, mm.root, FirstPage(vaddr), PageSpan(vaddr, memsz))
              && KeptOutside(old(k.m.mem), k.m.mem, mm.root, FirstPage(vaddr), PageSpan(vaddr, memsz))
              && MappedOrZero(k.m.mem, mm.root, FirstPage(vaddr), PageSpan(vaddr, memsz), ALL_RIGHTS)
              && (old(TablesOpen(k.m.mem, mm.root)) ==> TablesOpen(k.m.mem, mm.root))
    ensures Losses(old(k.m.stray), old(k.m.failures), k.m.stray, k.m.failures)
    ensures memsz == 0 ==> r == SegmentFailed
    ensures r == SegmentHeapFault ==> k.m.pmm.freePages == 0
    ensures Fits(old(k.Blocks()), SIZEOF_VMA) ==>
              && taken == 0 && r != SegmentHeapFault
              && (r == SegmentDone ==>
                    k.Blocks() == AllocAt(old(k.Blocks()), FirstFit(old(k.Blocks()), SIZEOF_VMA, 0), SIZEOF_VMA))
    // with enough frames, and while no table withholds writes, the segment's pages take its bytes
    ensures memsz > 0 && old(k.m.pmm.freePages) >= taken + NeedBound(PageSpan(vaddr, memsz))
            && old(TablesOpen(k.m.mem, mm.root)) ==>
              r == SegmentDone && k.m.stray == old(k.m.stray)
              && k.m.pmm.freePages + taken + NeedBound(PageSpan(vaddr, memsz)) >= old(k.m.pmm.freePages)
  {
    hide TableWf, PagesWf, Entry, HeapSpec.Tiles, View, IntrusiveList.IsRing, Up, Idx, Pmm.CountFree, Pmm.BitsOf,
      WindowMapped, SlotReady, Confined, SpaceOk, KeptOutside, NewPagesIn, MappedOrZero, RangeMapped, RangeUnmapped,
      PageSpan, FirstPage, PageOf, PteFlags, NeedBound, SameWalks, OnlyPages, Written, SegmentBytes, BytesKept,
      Present, Fits, AllocAt, Covered, TailFree, KernelHeap.Valid, Machine.Valid, Losses, VmaLinked, OwnFrees,
      FittingPtr, UpperRights, RightsOf, UppersKept, RangeRights, TablesOpen, StorableIn, VmaRights;
    ghost var m1, t1, p1, kroot := k.m.mem, k.m.tab, k.m.pages, k.m.kroot;
    k.Parts();
    var flags := VM_READ + VM_WRITE + if exec then VM_EXEC else 0;
    WritableFlags(exec);
    var s;
    ghost var mid, frees;
    s, taken, mid, frees := MapRange(k, mm, vaddr, memsz, flags);
    if s == Halted {
      return SegmentHeapFault, taken;
    }
    ghost var m2, t2, p2 := k.m.mem, k.m.tab, k.m.pages;
    ConfinedRoot(m1, t1, p1, m2, t2, p2, kroot, mm.root, mm.root);
    if s == Failed {
      return SegmentFailed, taken;
    }
    if TablesOpen(m1, mm.root) {
      OpenStays(m1, m2, mm.root);
      if k.m.stray == old(k.m.stray) {
        AllStorable(m2, p1, mm.root, flags, vaddr, memsz);
      }
    }
    var filled := FillSegment(k, cpu, vaddr, memsz, data);
    if !filled {
      return SegmentPageFault, taken;
    }
    k.Parts();
    SegmentPlaced(m1, t1, p1, m2, t2, p2, k.m.mem, kroot, mm.root, vaddr, memsz);
    FilledRights(m2, k.m.mem, t2, mm.root, vaddr, memsz);
    return SegmentDone, taken;
  }

  // memset and memcpy of one mapped segment; false on a page fault.
  method FillSegment(k: KernelHeap, cpu: Cpu, vaddr: nat, memsz: nat, data: seq<Byte>) returns (ok: bool)
    requires k.Valid() && IsRoot(k.m.tab, cpu.cr3) && cpu.cr3 != k.m.kroot
    requires |data| <= memsz && vaddr + memsz <= USER_BYTES
    modifies k.m`mem
    ensures k.Valid()
    ensures SameWalks(old(k.m.mem), k.m.mem, k.m.tab)
    ensures OnlyPages(old(k.m.mem), k.m.mem, k.m.pages, cpu.cr3, FirstPage(vaddr),
                      FirstPage(vaddr) + PageSpan(vaddr, memsz))
    ensures ok ==> SegmentBytes(k.m.mem, cpu.cr3, vaddr, memsz, data)
    ensures StorableIn(old(k.m.mem), cpu.cr3, vaddr, memsz) ==> ok
  {
    hide TableWf, PagesWf, Entry, HeapSpec.Tiles, View, IntrusiveList.IsRing, Pmm.CountFree, Pmm.BitsOf, WindowMapped,
      SlotReady, PageSpan, FirstPage, PageOf, SameWalks, OnlyPages, Written, SegmentBytes, MayStore;
    ghost var m2, tab, root := k.m.mem, k.m.tab, cpu.cr3;
    ok := ZeroUser(k, cpu, vaddr, memsz);
    ghost var m3 := k.m.mem;
    if !ok {
      return;
    }
    StorableStays(m2, m3, tab, root, vaddr, memsz);
    ok := CopyToUser(k, cpu, vaddr, data, memsz);
    WalksTrans(m2, m3, k.m.mem, tab);
    OnlyPagesTrans(m2, m3, k.m.mem, k.m.pages, root, FirstPage(vaddr), FirstPage(vaddr) + PageSpan(vaddr, memsz));
    if ok {
      ZeroThenCopy(m2, m3, k.m.mem, root, vaddr, memsz, data);
    }
  }

  ghost predicate StorableIn(mem: Memory, root: nat, va: nat, size: nat) {
    forall a: nat {:trigger PageOf(a)} :: va <= a < va + size ==> MayStore(mem, root, PageOf(a))
  }

  // Whatever p_flags say, the area is mapped with VM_WRITE.
  lemma WritableFlags(exec: bool)
    ensures VmaRights(VM_READ + VM_WRITE + if exec then VM_EXEC else 0) == ALL_RIGHTS
  {
  }

  // A range that was mapped for writing without losing a frame takes writes without a page fault.
  lemma {:induction false} AllStorable(mem: Memory, p0: Pages, root: nat, vmFlags: nat, va: nat, size: nat)
    requires size > 0 && RangeMapped(mem, p0, root, PteFlags(vmFlags), FirstPage(va), PageSpan(va, size))
    requires TablesOpen(mem, root) && VmaRights(vmFlags) == ALL_RIGHTS && va + size <= USER_BYTES
    requires MappedOrZero(mem, root, FirstPage(va), PageSpan(va, size), ALL_RIGHTS)
    ensures StorableIn(mem, root, va, size)
  {
    hide Entry, PageOf, FirstPage, PageSpan, RangeMapped, PteFlags, UpperRights, RightsOf;
    ZeroIsAbsent();
    SpanFits(va, size);
    MappedIsPresent(mem, p0, root, PteFlags(vmFlags), FirstPage(va), PageSpan(va, size));
    forall a: nat | va <= a < va + size ensures MayStore(mem, root, PageOf(a)) {
      PageInside(va, size, a);
    }
  }

  lemma {:induction false} StorableStays(m2: Memory, m3: Memory, tab: Tables, root: nat, va: nat, size: nat)
    requires SameWalks(m2, m3, tab) && IsRoot(tab, root) && va + size <= USER_BYTES
    ensures StorableIn(m2, root, va, size) ==> StorableIn(m3, root, va, size)
  {
    hide MayStore, SameWalks;
    forall a: nat | va <= a < va + size ensures MayStore(m3, root, PageOf(a)) == MayStore(m2, root, PageOf(a)) {
      StoreSame(m2, m3, tab, root, a);
    }
  }

  // Filling changes no rights.
  lemma {:induction false} FilledRights(m2: Memory, m4: Memory, tab: Tables, root: nat, vaddr: nat, memsz: nat)
    requires SameWalks(m2, m4, tab) && IsRoot(tab, root) && memsz > 0 && vaddr + memsz <= USER_BYTES
    requires MappedOrZero(m2, root, FirstPage(vaddr), PageSpan(vaddr, memsz), ALL_RIGHTS)
    ensures MappedOrZero(m4, root, FirstPage(vaddr), PageSpan(vaddr, memsz), ALL_RIGHTS)
    ensures TablesOpen(m2, root) ==> TablesOpen(m4, root)
  {
    hide Entry, FirstPage, PageSpan, UpperRights, RightsOf;
    SpanFits(vaddr, memsz);
    AllowsAll(m2, m4, tab, ALL_RIGHTS);
    forall v: nat | FirstPage(vaddr) <= v < FirstPage(vaddr) + PageSpan(vaddr, memsz)
      ensures Entry(m4, root, v) == Entry(m2, root, v)
    {
    }
  }

  // Mapping and filling the segment leaves everything outside its pages alone.
  lemma {:induction false} SegmentPlaced(m1: Memory, t1: Tables, p1: Pages, m2: Memory, t2: Tables, p2: Pages,
                                         m4: Memory, kroot: nat, root: nat, vaddr: nat, memsz: nat)
    requires Confined(m1, t1, p1, m2, t2, p2, kroot, root) && PagesWf(m1, t1, p1, kroot) && IsRoot(t1, root)
              && root != kroot
    requires RangeUnmapped(m1, root, FirstPage(vaddr), PageSpan(vaddr, memsz))
    requires KeptOutside(m1, m2, root, FirstPage(vaddr), PageSpan(vaddr, memsz))
    requires kroot in t2 && forall f :: f in p2 ==> f !in t2
    requires SameWalks(m2, m4, t2)
    requires OnlyPages(m2, m4, p2, root, FirstPage(vaddr), FirstPage(vaddr) + PageSpan(vaddr, memsz))
    ensures Confined(m1, t1, p1, m4, t2, p2, kroot, root)
    ensures BytesKept(m1, m4, root, FirstPage(vaddr), PageSpan(vaddr, memsz))
    ensures KeptOutside(m1, m4, root, FirstPage(vaddr), PageSpan(vaddr, memsz))
  {
    hide Entry, PagesWf, RangeUnmapped, Confined, BytesKept, KeptOutside, SameWalks, OnlyPages, FirstPage, PageSpan;
    var start, n := FirstPage(vaddr), PageSpan(vaddr, memsz);
    WritingIsConfined(m1, t1, p1, m2, t2, p2, m4, kroot, root, start, n);
    OtherBytesKept(m1, t1, p1, m2, t2, p2, m4, kroot, root, start, n);
  }

  lemma {:induction false} OnlyPagesTrans(m0: Memory, m1: Memory, m2: Memory, pages: Pages, root: nat, lo: nat, hi: nat)
    requires OnlyPages(m0, m1, pages, root, lo, hi) && OnlyPages(m1, m2, pages, root, lo, hi)
    ensures OnlyPages(m0, m2, pages, root, lo, hi)
  {
  }

  // ---- The whole file ----

  function FileBytes(file: ByteString, offset: nat, n: nat): (d: seq<Byte>)
    requires offset + n <= |file|
    ensures |d| == n
  {
    seq(n, i requires 0 <= i < n => file[offset + i] as nat)
  }

  // The segment's bytes are in place, and the entries of its pages allow user mode and writes.
  ghost predicate SegmentLoaded(mem: Memory, root: nat, file: ByteString, s: Segment) {
    s.load ==>
      && Sound(file, s) && SegmentBytes(mem, root, s.vaddr, s.memsz, FileBytes(file, s.offset, s.filesz))
      && (s.memsz > 0 ==> MappedOrZero(mem, root, FirstPage(s.vaddr), PageSpan(s.vaddr, s.memsz), ALL_RIGHTS))
  }

  ghost predicate SegmentAhead(mem: Memory, root: nat, s: Segment) {
    s.load && s.memsz > 0 ==> RangeUnmapped(mem, root, FirstPage(s.vaddr), PageSpan(s.vaddr, s.memsz))
  }

  ghost predicate LoadedUpTo(mem: Memory, root: nat, file: ByteString, ss: seq<Segment>, i: nat) {
    forall j :: 0 <= j < i && j < |ss| ==> SegmentLoaded(mem, root, file, ss[j])
  }

  ghost predicate AheadFrom(mem: Memory, root: nat, ss: seq<Segment>, i: nat) {
    forall j :: i <= j < |ss| ==> SegmentAhead(mem, root, ss[j])
  }

  // Loading segment i leaves the earlier ones loaded and the later ones unmapped.
  lemma NextSegment(m1: Memory, m4: Memory, root: nat, file: ByteString, ss: seq<Segment>, i: nat)
    requires AllSound(file, ss) && i < |ss| && ss[i].load && ss[i].memsz > 0
    requires LoadedUpTo(m1, root, file, ss, i) && AheadFrom(m1, root, ss, i)
    requires SegmentBytes(m4, root, ss[i].vaddr, ss[i].memsz, FileBytes(file, ss[i].offset, ss[i].filesz))
    requires BytesKept(m1, m4, root, FirstPage(ss[i].vaddr), PageSpan(ss[i].vaddr, ss[i].memsz))
    requires KeptOutside(m1, m4, root, FirstPage(ss[i].vaddr), PageSpan(ss[i].vaddr, ss[i].memsz))
    requires MappedOrZero(m4, root, FirstPage(ss[i].vaddr), PageSpan(ss[i].vaddr, ss[i].memsz), ALL_RIGHTS)
    ensures LoadedUpTo(m4, root, file, ss, i + 1) && AheadFrom(m4, root, ss, i + 1)
  {
    hide UserByte, Entry, PageOf, FirstPage, PageSpan, UpperRights, RightsOf, Present;
    forall j | 0 <= j < i ensures SegmentLoaded(m4, root, file, ss[j]) {
      assert SegmentLoaded(m1, root, file, ss[j]) && Apart(ss[j], ss[i]) && Sound(file, ss[j]);
      if ss[j].load {
        forall a: nat | ss[j].vaddr <= a < ss[j].vaddr + ss[j].memsz
          ensures UserByte(m4, root, a) == UserByte(m1, root, a)
        {
          PageInside(ss[j].vaddr, ss[j].memsz, a);
        }
        if ss[j].memsz > 0 {
          SpanFits(ss[j].vaddr, ss[j].memsz);
        }
      }
    }
    forall j | i + 1 <= j < |ss| ensures SegmentAhead(m4, root, ss[j]) {
      assert SegmentAhead(m1, root, ss[j]) && Apart(ss[i], ss[j]) && Sound(file, ss[j]);
      if ss[j].load && ss[j].memsz > 0 {
        SpanFits(ss[j].vaddr, ss[j].memsz);
      }
    }
  }

  // Frames that mapping the first i segments may consume.
  function NeedOf(s: Segment): nat {
    if s.load && s.memsz > 0 then NeedBound(PageSpan(s.vaddr, s.memsz)) else 0
  }

  function NeedSum(ss: seq<Segment>, i: nat): nat
    requires i <= |ss|
  {
    if i == 0 then 0 else NeedSum(ss, i - 1) + NeedOf(ss[i - 1])
  }

  lemma {:induction false} NeedSumGrows(ss: seq<Segment>, i: nat, j: nat)
    requires i <= j <= |ss|
    ensures NeedSum(ss, i) <= NeedSum(ss, j)
    decreases j
  {
    if i < j { NeedSumGrows(ss, i, j - 1); }
  }

  // How many of the first i headers are PT_LOAD.
  function LoadCount(ss: seq<Segment>, i: nat): nat
    requires i <= |ss|
  {
    if i == 0 then 0 else LoadCount(ss, i - 1) + if ss[i - 1].load then 1 else 0
  }

  lemma {:induction false} LoadCountGrows(ss: seq<Segment>, i: nat, j: nat)
    requires i <= j <= |ss|
    ensures LoadCount(ss, i) <= LoadCount(ss, j)
    decreases j
  {
    if i < j { LoadCountGrows(ss, i, j - 1); }
  }

  lemma SumsStart(ss: seq<Segment>)
    ensures NeedSum(ss, 0) == 0 && LoadCount(ss, 0) == 0
  {
  }

  lemma SumsNext(ss: seq<Segment>, i: nat)
    requires i < |ss|
    ensures NeedSum(ss, i + 1) == NeedSum(ss, i) + NeedOf(ss[i]) && NeedSum(ss, i + 1) <= NeedSum(ss, |ss|)
    ensures LoadCount(ss, i + 1) == LoadCount(ss, i) + (if ss[i].load then 1 else 0)
              && LoadCount(ss, i + 1) <= LoadCount(ss, |ss|)
    ensures !ss[i].load ==> NeedOf(ss[i]) == 0
  {
    NeedSumGrows(ss, i + 1, |ss|);
    LoadCountGrows(ss, i + 1, |ss|);
  }

  // entry is what load_elf returns on success; a caller takes 0 for a failure. The last two mean
  // that load_elf does not return: a write to an unmapped heap header or to an unmapped user page.
  datatype LoadResult = Loaded(entry: nat) | NotLoaded | StuckInHeap | StuckOnPage

  predicate Loadable(file: ByteString)
    requires |file| >= EHDR_SIZE
  {
    HeadersFit(file) && (forall i :: 0 <= i < |Segments(file)| ==> Sound(file, Segments(file)[i]))
    && (forall i, j :: 0 <= i < j < |Segments(file)| ==> Apart(Segments(file)[i], Segments(file)[j]))
  }

  // load_elf. When it succeeds, every PT_LOAD segment reads as the file's bytes followed by zeros,
  // all segments at once, through the page tables of the new process; other spaces are untouched,
  // and CR3 is what it was on success and on failure.
  method LoadElf(k: KernelHeap, cpu: Cpu, mm: Mm, file: ByteString) returns (r: LoadResult, ghost taken: nat)
    requires k.Valid() && IsRoot(k.m.tab, mm.root) && mm.root != k.m.kroot
    requires |file| >= EHDR_SIZE && (Magic(file) ==> Loadable(file) && AheadFrom(k.m.mem, mm.root, Segments(file), 0))
    modifies cpu, k`size, k`isFree, k`order, k`top, k.nodes, k.m`mem, k.m`tab, k.m`stray, k.m`failures, k.m`pages,
        k.m.pmm, k.m.pmm.bitmap
    modifies mm`vmas, mm`mapCount, mm`blocks
    ensures r.Loaded? || r.NotLoaded? ==>
              && cpu.cr3 == old(cpu.cr3) && k.Valid() && old(k.m.stray) <= k.m.stray
              && Confined(old(k.m.mem), old(k.m.tab), old(k.m.pages), k.m.mem, k.m.tab, k.m.pages, k.m.kroot, mm.root)
    ensures Losses(old(k.m.stray), old(k.m.failures), k.m.stray, k.m.failures)
    ensures !Magic(file) ==> r.NotLoaded? && k.m.mem == old(k.m.mem) && mm.vmas == old(mm.vmas)
    ensures r.Loaded? ==>
              && Magic(file) && r.entry == EntryPoint(file)
              && LoadedUpTo(k.m.mem, mm.root, file, Segments(file), |Segments(file)|)
              && forall i :: 0 <= i < |Segments(file)| && Segments(file)[i].load ==> Segments(file)[i].memsz > 0
    // in a new space, all loaded pages are open to user mode and to writes at all four levels
    ensures r.Loaded? && old(TablesOpen(k.m.mem, mm.root)) ==> TablesOpen(k.m.mem, mm.root)
    // with enough frames behind what the heap took, only an empty segment stands in the way; the
    // heap stops only when no frame is left, and with room for the areas' blocks it takes nothing
    ensures Magic(file) && old(k.m.pmm.freePages) >= taken + NeedSum(Segments(file), |Segments(file)|)
            && old(TablesOpen(k.m.mem, mm.root)) ==>
              || r.Loaded?
              || (r.NotLoaded? &&
                  exists i ::
                    0 <= i < |Segments(file)| && Segments(file)[i].load && Segments(file)[i].memsz == 0)
    ensures r.StuckInHeap? ==> k.m.pmm.freePages == 0
    ensures Magic(file) && RoomFor(old(k.Blocks()), LoadCount(Segments(file), |Segments(file)|)) ==>
              taken == 0
              && !r.StuckInHeap?
  {
    hide TableWf, PagesWf, Entry, HeapSpec.Tiles, View, IntrusiveList.IsRing, Up, Idx, Pmm.CountFree, Pmm.BitsOf,
      WindowMapped, SlotReady, Confined, LoadedUpTo, AheadFrom, Sound, Apart, SegmentAt, NeedSum, LoadCount, RoomFor,
      Losses, TablesOpen;
    LossesRefl(k.m.stray, k.m.failures);
    ConfinedRefl(k.m.mem, k.m.tab, k.m.pages, k.m.kroot, mm.root);
    taken := 0;
    if !Magic(file) {
      return NotLoaded, 0;
    }
    var oldCr3 := cpu.cr3;
    cpu.cr3 := mm.root;
    r, taken := LoadSegments(k, cpu, mm, file, Segments(file));
    if r.Loaded? || r.NotLoaded? {
      cpu.cr3 := oldCr3;
    }
  }

  // The program header loop.
  method LoadSegments(k: KernelHeap, cpu: Cpu, mm: Mm, file: ByteString, ss: seq<Segment>)
    returns (r: LoadResult, ghost taken: nat)
    requires k.Valid() && IsRoot(k.m.tab, mm.root) && mm.root != k.m.kroot && cpu.cr3 == mm.root
    requires |file| >= EHDR_SIZE && AllSound(file, ss) && AheadFrom(k.m.mem, mm.root, ss, 0)
    modifies k`size, k`isFree, k`order, k`top, k.nodes, k.m`mem, k.m`tab, k.m`stray, k.m`failures, k.m`pages, k.m.pmm,
        k.m.pmm.bitmap
    modifies mm`vmas, mm`mapCount, mm`blocks
    ensures r.Loaded? || r.NotLoaded? ==>
              && k.Valid() && old(k.m.stray) <= k.m.stray
              && Confined(old(k.m.mem), old(k.m.tab), old(k.m.pages), k.m.mem, k.m.tab, k.m.pages, k.m.kroot, mm.root)
    ensures Losses(old(k.m.stray), old(k.m.failures), k.m.stray, k.m.failures)
    ensures r.Loaded? ==>
              && r.entry == EntryPoint(file) && LoadedUpTo(k.m.mem, mm.root, file, ss, |ss|)
              && forall i :: 0 <= i < |ss| && ss[i].load ==> ss[i].memsz > 0
    ensures r.Loaded? && old(TablesOpen(k.m.mem, mm.root)) ==> TablesOpen(k.m.mem, mm.root)
    ensures old(k.m.pmm.freePages) >= taken + NeedSum(ss, |ss|) && old(TablesOpen(k.m.mem, mm.root)) ==>
              || r.Loaded?
              || (r.NotLoaded? && exists i :: 0 <= i < |ss| && ss[i].load && ss[i].memsz == 0)
    ensures r.StuckInHeap? ==> k.m.pmm.freePages == 0
    ensures RoomFor(old(k.Blocks()), LoadCount(ss, |ss|)) ==> taken == 0 && !r.StuckInHeap?
  {
    hide TableWf, PagesWf, Entry, HeapSpec.Tiles, View, IntrusiveList.IsRing, Up, Idx, Pmm.CountFree, Pmm.BitsOf,
      WindowMapped, SlotReady, Confined, KeptOutside, RangeUnmapped, PageSpan, FirstPage, NeedBound, SegmentBytes,
      BytesKept, LoadedUpTo, AheadFrom, Num, Apart, RoomFor, Fits, AllocAt, KernelHeap.Valid, Machine.Valid, Segments,
      Sound, LoadCount, NeedSum, NeedOf, Losses, TablesOpen;
    k.Parts();
    ghost var s0, n0 := k.m.stray, k.m.failures;
    LossesRefl(s0, n0);
    ghost var m0, t0, p0, kroot, root := k.m.mem, k.m.tab, k.m.pages, k.m.kroot, mm.root;
    ConfinedRefl(m0, t0, p0, kroot, root);
    taken := 0;
    NothingLoaded(m0, root, file, ss);
    SumsStart(ss);
    ghost var left: nat := LoadCount(ss, |ss|);
    ghost var short := !TablesOpen(m0, root);
    var i := 0;
    while i < |ss|
      invariant i <= |ss| && k.Valid() && k.Listed() && old(k.m.stray) <= k.m.stray && IsRoot(k.m.tab, root)
      invariant Confined(m0, t0, p0, k.m.mem, k.m.tab, k.m.pages, kroot, root)
                && Losses(s0, n0, k.m.stray, k.m.failures)
      invariant LoadedUpTo(k.m.mem, root, file, ss, i) && AheadFrom(k.m.mem, root, ss, i)
      invariant forall j :: 0 <= j < i && ss[j].load ==> ss[j].memsz > 0
      invariant TablesOpen(m0, root) ==> TablesOpen(k.m.mem, root)
      invariant if short then TablesOpen(m0, root) ==> old(k.m.pmm.freePages) < taken + NeedSum(ss, i)
                else TablesOpen(m0, root) && k.m.pmm.freePages + taken + NeedSum(ss, i) >= old(k.m.pmm.freePages)
      invariant left + LoadCount(ss, i) == LoadCount(ss, |ss|)
      invariant RoomFor(old(k.Blocks()), LoadCount(ss, |ss|)) ==> taken == 0 && RoomFor(k.Blocks(), left)
    {
      SumsNext(ss, i);
      if ss[i].load {
        ghost var m1, t1, p1, s1, n1, free := k.m.mem, k.m.tab, k.m.pages, k.m.stray, k.m.failures, k.m.pmm.freePages;
        var one, t := LoadNext(k, cpu, mm, file, ss, i, left);
        LossesTrans(s0, n0, s1, n1, k.m.stray, k.m.failures);
        left := left - 1;
        taken := taken + t;
        short := short || free < t + NeedOf(ss[i]);
        match one
        case SegmentHeapFault => return StuckInHeap, taken;
        case SegmentPageFault => return StuckOnPage, taken;
        case SegmentFailed =>
          ConfinedTrans(m0, t0, p0, m1, t1, p1, k.m.mem, k.m.tab, k.m.pages, kroot, root);
          return NotLoaded, taken;
        case SegmentDone =>
          k.Parts();
          ConfinedTrans(m0, t0, p0, m1, t1, p1, k.m.mem, k.m.tab, k.m.pages, kroot, root);
      } else {
        SkippedSegment(k.m.mem, root, file, ss, i);
      }
      i := i + 1;
    }
    r := Loaded(EntryPoint(file));
  }

  // One iteration for a PT_LOAD header.
  method LoadNext(k: KernelHeap, cpu: Cpu, mm: Mm, file: ByteString, ss: seq<Segment>, i: nat, ghost left: nat)
    returns (r: SegmentResult, ghost taken: nat)
    requires k.Valid() && IsRoot(k.m.tab, mm.root) && mm.root != k.m.kroot && cpu.cr3 == mm.root
    requires AllSound(file, ss) && i < |ss| && ss[i].load
    requires LoadedUpTo(k.m.mem, mm.root, file, ss, i) && AheadFrom(k.m.mem, mm.root, ss, i)
    modifies k`size, k`isFree, k`order, k`top, k.nodes, k.m`mem, k.m`tab, k.m`stray, k.m`failures, k.m`pages, k.m.pmm,
        k.m.pmm.bitmap
    modifies mm`vmas, mm`mapCount, mm`blocks
    ensures r == SegmentDone || r == SegmentFailed ==>
              && k.Valid() && old(k.m.stray) <= k.m.stray && IsRoot(k.m.tab, mm.root)
              && Confined(old(k.m.mem), old(k.m.tab), old(k.m.pages), k.m.mem, k.m.tab, k.m.pages, k.m.kroot, mm.root)
    ensures r == SegmentDone ==>
              ss[i].memsz > 0 && LoadedUpTo(k.m.mem, mm.root, file, ss, i + 1) && AheadFrom(k.m.mem, mm.root, ss, i + 1)
    ensures Losses(old(k.m.stray), old(k.m.failures), k.m.stray, k.m.failures)
    ensures ss[i].memsz == 0 ==> r == SegmentFailed
    ensures r == SegmentHeapFault ==> k.m.pmm.freePages == 0
    ensures left > 0 && RoomFor(old(k.Blocks()), left) ==>
              taken == 0 && r != SegmentHeapFault && (r == SegmentDone ==> RoomFor(k.Blocks(), left - 1))
    ensures r == SegmentDone && old(TablesOpen(k.m.mem, mm.root)) ==> TablesOpen(k.m.mem, mm.root)
    ensures ss[i].memsz > 0 && old(k.m.pmm.freePages) >= taken + NeedOf(ss[i])
            && old(TablesOpen(k.m.mem, mm.root)) ==>
              r == SegmentDone && k.m.pmm.freePages + taken + NeedOf(ss[i]) >= old(k.m.pmm.freePages)
  {
    hide TableWf, PagesWf, Entry, HeapSpec.Tiles, View, IntrusiveList.IsRing, Up, Idx, Pmm.CountFree, Pmm.BitsOf,
      WindowMapped, SlotReady, Confined, KeptOutside, RangeUnmapped, PageSpan, FirstPage, NeedBound, SegmentBytes,
      BytesKept, LoadedUpTo, AheadFrom, Apart, Fits, AllocAt, RoomFor, Losses, TablesOpen, MappedOrZero;
    ghost var m1 := k.m.mem;
    if left > 0 && RoomFor(k.Blocks(), left) {
      RoomNext(k.Blocks(), left);
    }
    var s := ss[i];
    assert Sound(file, s);
    AheadAt(m1, mm.root, ss, i);
    r, taken := LoadSegment(k, cpu, mm, s.vaddr, s.memsz, s.exec, FileBytes(file, s.offset, s.filesz));
    if r == SegmentDone {
      NextSegment(m1, k.m.mem, mm.root, file, ss, i);
    }
  }

  // What that says of a loaded page: user mode may use it, and writes pass.
  lemma {:induction false} LoadedRights(mem: Memory, root: nat, file: ByteString, ss: seq<Segment>, i: nat, a: nat)
    requires LoadedUpTo(mem, root, file, ss, |ss|) && TablesOpen(mem, root) && i < |ss| && ss[i].load
    requires ss[i].vaddr <= a < ss[i].vaddr + ss[i].memsz
    ensures MayStore(mem, root, PageOf(a)) && PageRights(mem, root, PageOf(a)) == ALL_RIGHTS
  {
    hide Entry, PageOf, FirstPage, PageSpan, UpperRights, RightsOf, ByteOf, FileBytes;
    ZeroIsAbsent();
    assert SegmentLoaded(mem, root, file, ss[i]);
    PageInside(ss[i].vaddr, ss[i].memsz, a);
    SpanFits(ss[i].vaddr, ss[i].memsz);
    assert UserByte(mem, root, a).Some?;
  }

  lemma NothingLoaded(mem: Memory, root: nat, file: ByteString, ss: seq<Segment>)
    ensures LoadedUpTo(mem, root, file, ss, 0)
  {
  }

  lemma AheadAt(mem: Memory, root: nat, ss: seq<Segment>, i: nat)
    requires AheadFrom(mem, root, ss, i) && i < |ss|
    ensures SegmentAhead(mem, root, ss[i])
  {
  }

  lemma SkippedSegment(mem: Memory, root: nat, file: ByteString, ss: seq<Segment>, i: nat)
    requires i < |ss| && !ss[i].load && LoadedUpTo(mem, root, file, ss, i) && AheadFrom(mem, root, ss, i)
    ensures LoadedUpTo(mem, root, file, ss, i + 1) && AheadFrom(mem, root, ss, i + 1)
  {
    hide UserByte, Entry;
  }
}
