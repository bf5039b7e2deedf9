/** Page-table entries and virtual page numbers (kernel/src/mm/paging.h).

    An entry is a 64-bit word. The rest of the project reads and writes entries with
    division and remainder on `Word`; the lemmas over `bv64` at the end show that these
    are the shifts and masks of the macros in paging.h.
  */
module Pte {
  import opened Common

  const WORD_LIMIT: nat := 0x1_0000_0000_0000_0000
  const FRAME_LIMIT: nat := 0x100_0000_0000  // 2^40 frames: PTE_ADDR_MASK keeps bits 12..51
  const VPN_LIMIT: nat := 0x10_0000_0000     // 2^36 pages of a 48-bit address space
  const USER_LIMIT: nat := 0x8_0000_0000     // 2^35 pages reached through PML4 entries 0..255
  const SLOT_PAGES: nat := 0x800_0000        // 2^27 pages, 512 GB, reached through one PML4 entry

  const PTE_PRESENT: nat := 1
  const PTE_RW: nat := 2
  const PTE_USER: nat := 4

  type Word = w: nat | w < WORD_LIMIT

  // One page frame seen as a page table or as data: 512 words.
  type Frame = s: seq<Word> | |s| == 512 witness seq(512, i => 0)

  // memset(page, 0, PAGE_SIZE)
  function ZeroFrame(): (z: Frame)
    ensures forall i :: 0 <= i < 512 ==> z[i] == 0
  {
    seq(512, i => 0)
  }

  predicate Present(e: Word) {
    e % 2 == 1
  }

  // PTE_GET_ADDR(e) / PAGE_SIZE
  function FrameOf(e: Word): (f: nat)
    ensures f < FRAME_LIMIT
  {
    e / PAGE_SIZE % FRAME_LIMIT
  }

  // e & 0xFFF
  function LowFlags(e: Word): (flags: nat)
    ensures flags < PAGE_SIZE
  {
    e % PAGE_SIZE
  }

  // pa | flags, for a page-aligned pa = f * PAGE_SIZE
  function MakeEntry(f: nat, flags: nat): Word
    requires f < FRAME_LIMIT && flags < PAGE_SIZE
  {
    f * PAGE_SIZE + flags
  }

  // flags | PTE_PRESENT
  function SetPresent(flags: nat): nat
    requires flags < PAGE_SIZE
    ensures SetPresent(flags) < PAGE_SIZE && SetPresent(flags) % 2 == 1
  {
    if flags % 2 == 1 then flags else flags + 1
  }

  // ---- Rights: the R/W and the U/S bit (Intel SDM, volume 3A, section 4.6) ----

  datatype Rights = Rights(write: bool, user: bool)

  const ALL_RIGHTS := Rights(true, true)

  function RightsOf(e: nat): Rights {
    Rights(e / PTE_RW % 2 == 1, e / PTE_USER % 2 == 1)
  }

  // What two entries on the way to a page allow together.
  function Both(a: Rights, b: Rights): Rights {
    Rights(a.write && b.write, a.user && b.user)
  }

  predicate Allows(r: Rights, need: Rights) {
    (need.write ==> r.write) && (need.user ==> r.user)
  }

  // The frame number does not touch the bits, and neither does the present bit.
  lemma EntryRights(f: nat, flags: nat)
    requires f < FRAME_LIMIT && flags < PAGE_SIZE
    ensures RightsOf(MakeEntry(f, flags)) == RightsOf(flags) && RightsOf(SetPresent(flags)) == RightsOf(flags)
    ensures flags < 8 ==> RightsOf(flags) == Rights(flags / 2 % 2 == 1, flags >= 4)
  {
    LowBits(f, flags);
  }

  // An entry with the low flags of another gives the same rights.
  lemma LowFlagsRights(f: nat, e: Word)
    requires f < FRAME_LIMIT
    ensures RightsOf(MakeEntry(f, LowFlags(e))) == RightsOf(e)
  {
    EntryRights(f, LowFlags(e));
    LowBits(e / PAGE_SIZE, LowFlags(e));
  }

  lemma LowBits(q: nat, r: nat)
    ensures RightsOf(q * PAGE_SIZE + r) == RightsOf(r)
  {
    HalfOf(q, r);
    QuarterOf(q, r);
    EvenPart(q * 1024, r / 2);
    EvenPart(q * 512, r / 4);
  }

  lemma HalfOf(q: nat, r: nat)
    ensures (q * 4096 + r) / 2 == q * 2048 + r / 2
  {
  }

  lemma QuarterOf(q: nat, r: nat)
    ensures (q * 4096 + r) / 4 == q * 1024 + r / 4
  {
  }

  lemma EvenPart(x: nat, y: nat)
    ensures (2 * x + y) % 2 == y % 2
  {
  }

  lemma ZeroIsAbsent()
    ensures !Present(0)
  {
  }

  lemma EntryRoundTrip(f: nat, flags: nat)
    requires f < FRAME_LIMIT && flags < PAGE_SIZE
    ensures FrameOf(MakeEntry(f, flags)) == f
    ensures LowFlags(MakeEntry(f, flags)) == flags
    ensures Present(MakeEntry(f, flags)) <==> flags % 2 == 1
  {
    DivMod(f, flags);
    var e := f * PAGE_SIZE + flags;
    assert e / PAGE_SIZE == f && e % PAGE_SIZE == flags;
    assert f % FRAME_LIMIT == f;
  }

  lemma DivMod(f: nat, flags: nat)
    requires flags < PAGE_SIZE
    ensures (f * PAGE_SIZE + flags) / PAGE_SIZE == f && (f * PAGE_SIZE + flags) % PAGE_SIZE == flags
    ensures (f * PAGE_SIZE + flags) % 2 == flags % 2
  {
  }

  // Prefix of page number v that selects the table at `depth`: depth 0 is the PML4 (always
  // prefix 0), depth 3 a PT, depth 4 the page itself.
  function Up(v: nat, depth: nat): nat
    requires depth <= 4
    decreases 4 - depth
  {
    if depth == 4 then v else Up(v, depth + 1) / 512
  }

  // Index used in the table at `depth` on the way to page v: PML4_IDX, PDPT_IDX, PD_IDX, PT_IDX.
  function Idx(v: nat, depth: nat): (i: nat)
    requires depth < 4
    ensures i < 512
  {
    Up(v, depth + 1) % 512
  }

  lemma UpValues(v: nat)
    ensures Up(v, 3) == v / 512
    ensures Up(v, 2) == v / 512 / 512
    ensures Up(v, 1) == v / 512 / 512 / 512
    ensures Up(v, 0) == v / 512 / 512 / 512 / 512
    ensures v < VPN_LIMIT ==> Up(v, 0) == 0 && Up(v, 1) == Idx(v, 0)
    ensures v < VPN_LIMIT ==> (v < USER_LIMIT <==> Idx(v, 0) < 256)
  {
  }

  // A page number is determined by its PT's prefix and its index in the PT.
  lemma UpInjective(u: nat, v: nat)
    requires Up(u, 3) == Up(v, 3) && Idx(u, 3) == Idx(v, 3)
    ensures u == v
  {
    UpValues(u);
    UpValues(v);
  }

  // First page below a table at `depth` with prefix q.
  function First(q: nat, depth: nat): nat
    requires depth <= 4
    decreases 4 - depth
  {
    if depth == 4 then q else First(q * 512, depth + 1)
  }

  lemma {:induction false} FirstUp(q: nat, depth: nat)
    requires depth <= 4
    ensures Up(First(q, depth), depth) == q
    decreases 4 - depth
  {
    if depth < 4 {
      FirstUp(q * 512, depth + 1);
    }
  }

  function Pow512(d: nat): nat {
    if d == 0 then 1 else 512 * Pow512(d - 1)
  }

  lemma {:induction false} FirstBound(q: nat, depth: nat)
    requires depth <= 4 && q < Pow512(depth)
    ensures First(q, depth) < VPN_LIMIT
    decreases 4 - depth
  {
    if depth < 4 {
      FirstBound(q * 512, depth + 1);
    } else {
      assert Pow512(4) == 512 * Pow512(3) == 512 * (512 * Pow512(2));
    }
  }

  lemma {:induction false} UpMonotone(u: nat, v: nat, depth: nat)
    requires depth <= 4 && u <= v
    ensures Up(u, depth) <= Up(v, depth)
    decreases 4 - depth
  {
    if depth < 4 {
      UpMonotone(u, v, depth + 1);
    }
  }

  // Neighbouring pages lie in the same table or in neighbouring tables.
  lemma {:induction false} UpSuccessor(v: nat, depth: nat)
    requires depth <= 4
    ensures Up(v, depth) <= Up(v + 1, depth) <= Up(v, depth) + 1
    decreases 4 - depth
  {
    if depth < 4 {
      UpSuccessor(v, depth + 1);
    }
  }

  // ---- The macros of paging.h, in 64-bit arithmetic ----

  const BV_ADDR_MASK: bv64 := 0x000F_FFFF_FFFF_F000

  // The four index macros cut the page number exactly as Up and Idx do.
  lemma IndexMacros(va: bv64)
    ensures (va >> 12) & 0x1FF == va / 4096 % 512
    ensures (va >> 21) & 0x1FF == va / 4096 / 512 % 512
    ensures (va >> 30) & 0x1FF == va / 4096 / 512 / 512 % 512
    ensures (va >> 39) & 0x1FF == va / 4096 / 512 / 512 / 512 % 512
  {
  }

  // PTE_PRESENT test, PTE_GET_ADDR and `& 0xFFF` are the remainder and quotient forms above.
  lemma EntryMacros(e: bv64)
    ensures (e & 1 != 0) == (e % 2 == 1)
    ensures e & BV_ADDR_MASK == (e / 4096 % 0x100_0000_0000) * 4096
    ensures e & 0xFFF == e % 4096
  {
  }

  // PTE_RW and PTE_USER are the bits that RightsOf reads, and the flags of vmm.h's callers are sums.
  lemma RightsMacros(e: bv64)
    ensures (e & 2 != 0) == (e / 2 % 2 == 1) && (e & 4 != 0) == (e / 4 % 2 == 1)
    ensures 1 | 4 == 5 as bv64 && 5 | 2 == 7 as bv64 && 1 | 2 == 3 as bv64
  {
  }

  lemma DisjointOrIsSum(a: bv64, b: bv64)
    requires a & b == 0
    ensures a | b == a + b
  {
  }

  // `pa | flags` is the sum that MakeEntry forms, and both parts can be masked out again.
  lemma ComposeMacro(pa: bv64, flags: bv64)
    requires pa & !BV_ADDR_MASK == 0 && flags & !0xFFF == 0
    ensures pa | flags == pa + flags
    ensures (pa | flags) & BV_ADDR_MASK == pa
    ensures (pa | flags) & 0xFFF == flags
  {
    assert pa & flags == 0;
    DisjointOrIsSum(pa, flags);
  }

  lemma SetPresentMacro(flags: bv64)
    requires flags & !0xFFF == 0
    ensures flags | 1 == if flags % 2 == 1 then flags else flags + 1
    ensures (flags | 1) & !0xFFF == 0
  {
  }
}
