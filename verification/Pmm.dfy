/** The bitmap allocator of physical page frames (kernel/src/mm/pmm.c).

    A set bit means busy. `Bits` is the bitmap read as one boolean per page; the methods keep
    the byte array, the free-page counter and the search cursor in step with it.
  */
module Pmm {
  import opened Common

  // ---- Bits of a byte ----

  // 1 << k
  function Mask(k: nat): bv8
    requires k < 8
  {
    if k == 0 then 1 else if k == 1 then 2 else if k == 2 then 4 else if k == 3 then 8
    else if k == 4 then 16 else if k == 5 then 32 else if k == 6 then 64 else 128
  }

  predicate Test(b: bv8, k: nat)
    requires k < 8
  {
    b & Mask(k) != 0
  }

  // bitmap[i] |= 1 << k
  function Raise(b: bv8, k: nat): bv8
    requires k < 8
  {
    b | Mask(k)
  }

  // bitmap[i] &= ~(1 << k)
  function Lower(b: bv8, k: nat): bv8
    requires k < 8
  {
    b & !Mask(k)
  }

  lemma SetBit(b: bv8, k: nat, j: nat)
    requires k < 8 && j < 8
    ensures Test(Raise(b, k), j) <==> k == j || Test(b, j)
    ensures Test(Lower(b, k), j) <==> k != j && Test(b, j)
  {
  }

  // ---- The bitmap as a sequence of booleans ----

  function BitsOf(bytes: seq<bv8>, n: nat): (bits: seq<bool>)
    requires n <= 8 * |bytes|
    ensures |bits| == n
  {
    seq(n, i requires 0 <= i < n => Test(bytes[i / 8], i % 8))
  }

  lemma WriteBit(bytes: seq<bv8>, n: nat, i: nat)
    requires i < n <= 8 * |bytes|
    ensures BitsOf(bytes[i / 8 := Raise(bytes[i / 8], i % 8)], n) == BitsOf(bytes, n)[i := true]
    ensures BitsOf(bytes[i / 8 := Lower(bytes[i / 8], i % 8)], n) == BitsOf(bytes, n)[i := false]
  {
    hide Mask, Test, Raise, Lower;
    var was := BitsOf(bytes, n);
    var raised := BitsOf(bytes[i / 8 := Raise(bytes[i / 8], i % 8)], n);
    var lowered := BitsOf(bytes[i / 8 := Lower(bytes[i / 8], i % 8)], n);
    forall j | 0 <= j < n
      ensures raised[j] == was[i := true][j] && lowered[j] == was[i := false][j]
    {
      SetBit(bytes[i / 8], i % 8, j % 8);
    }
  }

  function CountFree(bits: seq<bool>): nat {
    if |bits| == 0 then 0
    else CountFree(bits[..|bits| - 1]) + if bits[|bits| - 1] then 0 else 1
  }

  lemma {:induction false} CountUpdate(bits: seq<bool>, i: nat, b: bool)
    requires i < |bits|
    ensures CountFree(bits[i := b]) == CountFree(bits) + (if bits[i] then 1 else 0) - (if b then 1 else 0)
  {
    var n := |bits| - 1;
    if i < n {
      assert bits[i := b][..n] == bits[..n][i := b];
      CountUpdate(bits[..n], i, b);
    } else {
      assert bits[i := b][..n] == bits[..n];
    }
  }

  lemma {:induction false} CountZero(bits: seq<bool>)
    ensures CountFree(bits) == 0 <==> forall i :: 0 <= i < |bits| ==> bits[i]
  {
    if |bits| > 0 {
      CountZero(bits[..|bits| - 1]);
      assert forall i :: 0 <= i < |bits| - 1 ==> bits[..|bits| - 1][i] == bits[i];
    }
  }

  // ---- Which page an allocation takes ----

  // First clear bit in [lo, hi), or hi.
  function FirstClear(bits: seq<bool>, lo: nat, hi: nat): (i: nat)
    requires lo <= hi <= |bits|
    ensures lo <= i <= hi
    ensures i < hi ==> !bits[i]
    ensures forall k :: lo <= k < i ==> bits[k]
    decreases hi - lo
  {
    if lo == hi || !bits[lo] then lo else FirstClear(bits, lo + 1, hi)
  }

  // Next fit from the cursor, wrapping around once; |bits| when every page is busy.
  function NextFit(bits: seq<bool>, cursor: nat): nat
    requires cursor <= |bits|
  {
    var i := FirstClear(bits, cursor, |bits|);
    if i < |bits| then i
    else
      var j := FirstClear(bits, 0, cursor);
      if j < cursor then j else |bits|
  }

  ghost predicate BusyBelow(bits: seq<bool>, cursor: nat) {
    cursor <= |bits| && forall i :: 0 <= i < cursor ==> bits[i]
  }

  // With every page below the cursor busy, next fit is lowest fit and never wraps around.
  lemma NextFitIsLowestFit(bits: seq<bool>, cursor: nat)
    requires BusyBelow(bits, cursor)
    ensures NextFit(bits, cursor) == FirstClear(bits, 0, |bits|)
    ensures FirstClear(bits, 0, cursor) == cursor
  {
  }

  // ---- The boot memory map ----

  datatype MemmapEntry = MemmapEntry(base: nat, length: nat, usable: bool)

  function AlignUp(x: nat): nat { (x + PAGE_SIZE - 1) / PAGE_SIZE * PAGE_SIZE }

  function EntryStart(e: MemmapEntry): nat { AlignUp(e.base) / PAGE_SIZE }

  function EntryEnd(e: MemmapEntry): nat { (e.base + e.length) / PAGE_SIZE }

  // Page p lies in the part of a usable entry that pmm_set_free accepts: the range setter
  // drops a range that reaches total_pages.
  predicate Offered(e: MemmapEntry, total: nat, p: nat) {
    e.usable && EntryStart(e) <= p < EntryEnd(e) && EntryEnd(e) < total
  }

  predicate OfferedBySome(mmap: seq<MemmapEntry>, total: nat, p: nat) {
    exists k :: 0 <= k < |mmap| && Offered(mmap[k], total, p)
  }

  function BitmapSize(total: nat): nat { total / 8 + if total % 8 != 0 then 1 else 0 }

  function BitmapPages(total: nat): nat { AlignUp(BitmapSize(total)) / PAGE_SIZE }

  // pmm_set_busy(start, n) takes effect on page p.
  predicate Reserved(start: nat, n: nat, total: nat, p: nat) {
    start <= p < start + n && start + n < total
  }

  // What a range setter does to the bitmap.
  function Painted(bits: seq<bool>, start: nat, n: nat, busy: bool): (r: seq<bool>)
    ensures |r| == |bits|
  {
    seq(|bits|, p requires 0 <= p < |bits| =>
      if start <= p < start + n && start + n < |bits| then busy else bits[p])
  }

  datatype FreeResult = Freed | Invalid | DoubleFree

  // pmm_alloc_page's answer when no page is free.
  const NO_PAGE: nat := 0

  class FrameAllocator {
    const bitmap: array<bv8>
    const totalPages: nat
    const bitmapPage: nat  // bitmap_pa / PAGE_SIZE
    var freePages: nat
    var cursor: nat        // last_free_index

    ghost predicate Sized() {
      totalPages <= 8 * bitmap.Length
    }

    ghost function Bits(): (bits: seq<bool>)
      requires Sized()
      reads bitmap
      ensures |bits| == totalPages
    {
      BitsOf(bitmap[..], totalPages)
    }

    ghost predicate Valid()
      reads this, bitmap
    {
      && Sized()
      && freePages == CountFree(Bits())
      && cursor <= totalPages
    }

    // Holds after pmm_init and after every allocation and release.
    ghost predicate Tight()
      requires Sized()
      reads this, bitmap
    {
      BusyBelow(Bits(), cursor)
    }

    method BitTest(bit: nat) returns (b: bool)
      requires Sized() && bit < totalPages
      ensures b == Bits()[bit]
    {
      b := Test(bitmap[bit / 8], bit % 8);
    }

    method BitSet(bit: nat)
      requires Sized() && bit < totalPages
      modifies bitmap
      ensures Bits() == old(Bits())[bit := true]
    {
      hide Raise, Lower, Mask, Test, BitsOf;
      WriteBit(bitmap[..], totalPages, bit);
      ghost var bytes := bitmap[..];
      bitmap[bit / 8] := Raise(bitmap[bit / 8], bit % 8);
      assert bitmap[..] == bytes[bit / 8 := Raise(bytes[bit / 8], bit % 8)];
    }

    method BitUnset(bit: nat)
      requires Sized() && bit < totalPages
      modifies bitmap
      ensures Bits() == old(Bits())[bit := false]
    {
      hide Raise, Lower, Mask, Test, BitsOf;
      WriteBit(bitmap[..], totalPages, bit);
      ghost var bytes := bitmap[..];
      bitmap[bit / 8] := Lower(bitmap[bit / 8], bit % 8);
      assert bitmap[..] == bytes[bit / 8 := Lower(bytes[bit / 8], bit % 8)];
    }

    // One of the two scans of pmm_alloc_page.
    method Scan(lo: nat, hi: nat) returns (i: nat)
      requires Sized() && lo <= hi <= totalPages
      ensures i == FirstClear(Bits(), lo, hi)
    {
      i := lo;
      while i < hi
        invariant lo <= i <= hi
        invariant FirstClear(Bits(), lo, hi) == FirstClear(Bits(), i, hi)
      {
        var busy := BitTest(i);
        if !busy {
          return;
        }
        i := i + 1;
      }
    }

    // Marks the page found by a scan and moves the cursor behind it.
    method Take(i: nat)
      requires Valid() && i < totalPages && !Bits()[i]
      modifies this, bitmap
      ensures Valid() && Bits() == old(Bits())[i := true]
      ensures freePages == old(freePages) - 1 && cursor == i + 1
    {
      CountUpdate(Bits(), i, true);
      BitSet(i);
      freePages := freePages - 1;
      cursor := i + 1;
    }

    // Returns the page index of the allocated frame, 0 when there is none.
    method AllocPage() returns (page: nat)
      requires Valid()
      modifies this, bitmap
      ensures Valid()
      ensures var chosen := NextFit(old(Bits()), old(cursor));
              if chosen == totalPages
              then page == 0 && Bits() == old(Bits()) && freePages == old(freePages) == 0 && cursor == old(cursor)
              else page == chosen && Bits() == old(Bits())[page := true]
                   && freePages == old(freePages) - 1 && cursor == page + 1
      ensures old(Tight()) ==> Tight() && NextFit(old(Bits()), old(cursor)) == FirstClear(old(Bits()), 0, totalPages)
    {
      CountZero(Bits());
      if Tight() {
        NextFitIsLowestFit(Bits(), cursor);
      }
      if freePages == 0 {
        return 0;
      }
      page := Scan(cursor, totalPages);
      if page < totalPages {
        Take(page);
        return;
      }
      page := Scan(0, cursor);
      if page < cursor {
        Take(page);
        return;
      }
      return NO_PAGE;
    }

    // pmm_free_page: out-of-range and already-free pages are reported and otherwise ignored.
    method FreePage(page: nat) returns (r: FreeResult)
      requires Valid()
      modifies this, bitmap
      ensures Valid()
      ensures r == if page >= totalPages then Invalid else if !old(Bits())[page] then DoubleFree else Freed
      ensures r != Freed ==> Bits() == old(Bits()) && freePages == old(freePages) && cursor == old(cursor)
      ensures r == Freed ==> Bits() == old(Bits())[page := false] && freePages == old(freePages) + 1
                             && cursor == if page < old(cursor) then page else old(cursor)
      ensures old(Tight()) ==> Tight()
    {
      if page >= totalPages {
        return Invalid;
      }
      var busy := BitTest(page);
      if !busy {
        return DoubleFree;
      }
      CountUpdate(Bits(), page, false);
      BitUnset(page);
      freePages := freePages + 1;
      if page < cursor {
        cursor := page;
      }
      return Freed;
    }

    // The body of the loop in pmm_set_free and pmm_set_busy.
    method SetOne(page: nat, busy: bool)
      requires Valid() && page < totalPages
      modifies this, bitmap
      ensures Valid() && cursor == old(cursor)
      ensures Bits() == old(Bits())[page := busy]
    {
      hide BitsOf, CountFree;
      var was := BitTest(page);
      if was != busy {
        CountUpdate(Bits(), page, busy);
        if busy {
          BitSet(page);
          freePages := freePages - 1;
        } else {
          BitUnset(page);
          freePages := freePages + 1;
        }
      }
    }

    // pmm_set_free and pmm_set_busy on pages [start, start + n): a range that reaches
    // total_pages is dropped as a whole.
    method SetRange(start: nat, n: nat, busy: bool)
      requires Valid()
      modifies this, bitmap
      ensures Valid() && cursor == old(cursor)
      ensures Bits() == Painted(old(Bits()), start, n, busy)
    {
      hide BitsOf, CountFree;
      ghost var before := Bits();
      if start + n >= totalPages {
        return;
      }
      var i := 0;
      while i < n
        invariant i <= n && Valid() && cursor == old(cursor)
        invariant forall p :: 0 <= p < totalPages ==> Bits()[p] == if start <= p < start + i then busy else before[p]
      {
        SetOne(start + i, busy);
        i := i + 1;
      }
    }

    // The bitmap as memset(bitmap, 0xFF, bitmap_size) leaves it.
    constructor AllBusy(total: nat, at: nat)
      ensures fresh(bitmap) && Valid() && totalPages == total && bitmapPage == at && cursor == 0
      ensures forall p :: 0 <= p < total ==> Bits()[p]
    {
      totalPages := total;
      bitmapPage := at;
      bitmap := new bv8[BitmapSize(total)](i => 0xFF);
      freePages := 0;
      cursor := 0;
      new;
      CountZero(Bits());
    }
  }

  // ---- pmm_init ----

  function HighestEnd(mmap: seq<MemmapEntry>): nat {
    if mmap == [] then 0
    else
      var rest := HighestEnd(mmap[..|mmap| - 1]);
      var e := mmap[|mmap| - 1];
      if e.base + e.length > rest then e.base + e.length else rest
  }

  predicate CanHoldBitmap(e: MemmapEntry, total: nat) {
    e.usable && e.length >= BitmapSize(total) && e.length >= BitmapPages(total) * PAGE_SIZE
  }

  method FindHighest(mmap: seq<MemmapEntry>) returns (highest: nat)
    ensures highest == HighestEnd(mmap)
  {
    highest := 0;
    for i := 0 to |mmap|
      invariant highest == HighestEnd(mmap[..i])
    {
      assert mmap[..i + 1][..i] == mmap[..i];
      var end := mmap[i].base + mmap[i].length;
      if end > highest {
        highest := end;
      }
    }
    assert mmap[..|mmap|] == mmap;
  }

  // Base of the first usable entry that can hold the bitmap, 0 when there is none.
  method FindBitmapPlace(mmap: seq<MemmapEntry>, total: nat) returns (at: nat, ghost found: nat)
    ensures at != 0 ==> found < |mmap| && CanHoldBitmap(mmap[found], total) && at == mmap[found].base
    ensures at == 0 ==> forall k :: 0 <= k < |mmap| && CanHoldBitmap(mmap[k], total) ==>
                          exists l :: 0 <= l <= k && CanHoldBitmap(mmap[l], total) && mmap[l].base == 0
  {
    at, found := 0, |mmap|;
    for i := 0 to |mmap|
      invariant at == 0 && forall k :: 0 <= k < i ==> !CanHoldBitmap(mmap[k], total)
    {
      if mmap[i].usable && mmap[i].length >= BitmapSize(total) {
        if mmap[i].length >= BitmapPages(total) * PAGE_SIZE {
          return mmap[i].base, i;
        }
      }
    }
  }

  // Exactly which pages are free after pmm_init.
  ghost predicate InitialBits(mmap: seq<MemmapEntry>, bits: seq<bool>, at: nat) {
    var total := |bits|;
    forall p :: 0 <= p < total ==>
      (!bits[p] <==> OfferedBySome(mmap, total, p)
                     && !Reserved(at, BitmapPages(total), total, p) && !Reserved(0, 1, total, p))
  }

  // None: the kernel halts because no usable entry above address 0 can hold the bitmap.
  method PmmInit(mmap: seq<MemmapEntry>) returns (r: Option<FrameAllocator>)
    ensures r.Some? ==>
              var pmm := r.value;
              && fresh(pmm) && fresh(pmm.bitmap) && pmm.Valid() && pmm.Tight()
              && pmm.totalPages == HighestEnd(mmap) / PAGE_SIZE
              && (exists k :: 0 <= k < |mmap| && CanHoldBitmap(mmap[k], pmm.totalPages)
                              && pmm.bitmapPage == mmap[k].base / PAGE_SIZE)
              && InitialBits(mmap, pmm.Bits(), pmm.bitmapPage)
    ensures r.None? ==> forall k :: 0 <= k < |mmap| && CanHoldBitmap(mmap[k], HighestEnd(mmap) / PAGE_SIZE) ==>
                          exists l :: 0 <= l <= k && CanHoldBitmap(mmap[l], HighestEnd(mmap) / PAGE_SIZE)
                              && mmap[l].base == 0
  {
    hide BitsOf, CountFree, HighestEnd, Mask, Test;
    var highest := FindHighest(mmap);
    var total := highest / PAGE_SIZE;
    var at, found := FindBitmapPlace(mmap, total);
    if at == 0 {
      return None;
    }

    var pmm := new FrameAllocator.AllBusy(total, at / PAGE_SIZE);
    for i := 0 to |mmap|
      invariant fresh(pmm) && fresh(pmm.bitmap) && pmm.Valid() && pmm.cursor == 0
      invariant forall p :: 0 <= p < total ==> (!pmm.Bits()[p] <==> OfferedBySome(mmap[..i], total, p))
    {
      var e := mmap[i];
      ghost var before := pmm.Bits();
      if e.usable && EntryStart(e) < EntryEnd(e) {
        pmm.SetRange(EntryStart(e), EntryEnd(e) - EntryStart(e), false);
      }
      forall p | 0 <= p < total ensures !pmm.Bits()[p] <==> OfferedBySome(mmap[..i + 1], total, p) {
        OfferedByNext(mmap, i, total, p);
        assert pmm.Bits()[p] == if Offered(e, total, p) then false else before[p];
      }
    }
    assert mmap[..|mmap|] == mmap;
    pmm.SetRange(at / PAGE_SIZE, BitmapPages(total), true);
    pmm.SetRange(0, 1, true);
    return Some(pmm);
  }

  lemma OfferedByNext(mmap: seq<MemmapEntry>, i: nat, total: nat, p: nat)
    requires i < |mmap|
    ensures OfferedBySome(mmap[..i + 1], total, p) <==> OfferedBySome(mmap[..i], total, p) || Offered(mmap[i], total, p)
  {
    if OfferedBySome(mmap[..i + 1], total, p) {
      var k :| 0 <= k < i + 1 && Offered(mmap[..i + 1][k], total, p);
      assert k < i ==> mmap[..i][k] == mmap[k];
    }
    if OfferedBySome(mmap[..i], total, p) {
      var k :| 0 <= k < i && Offered(mmap[..i][k], total, p);
      assert mmap[..i + 1][k] == mmap[k];
    }
    if Offered(mmap[i], total, p) {
      assert mmap[..i + 1][i] == mmap[i];
    }
  }

  // Limine Boot Protocol, Memory Map Feature: usable entries are page aligned and do not overlap.
  ghost predicate LimineMap(mmap: seq<MemmapEntry>) {
    && (forall k :: 0 <= k < |mmap| && mmap[k].usable ==>
        mmap[k].base % PAGE_SIZE == 0
        && mmap[k].length % PAGE_SIZE == 0)
    && (forall k, l :: 0 <= k < |mmap| && 0 <= l < |mmap| && k != l && mmap[k].usable && mmap[l].usable ==>
          mmap[k].base + mmap[k].length <= mmap[l].base || mmap[l].base + mmap[l].length <= mmap[k].base)
  }

  // Although the setters drop ranges that reach total_pages, no page of the bitmap is ever
  // offered without being taken back: an entry whose reservation is dropped was not offered.
  lemma BitmapNeverFree(mmap: seq<MemmapEntry>, k: nat, total: nat, p: nat)
    requires LimineMap(mmap) && k < |mmap| && CanHoldBitmap(mmap[k], total)
    requires mmap[k].base / PAGE_SIZE <= p < mmap[k].base / PAGE_SIZE + BitmapPages(total)
    requires OfferedBySome(mmap, total, p)
    ensures Reserved(mmap[k].base / PAGE_SIZE, BitmapPages(total), total, p)
  {
    var l :| 0 <= l < |mmap| && Offered(mmap[l], total, p);
    var e, f := mmap[k], mmap[l];
    AlignedEntry(e);
    AlignedEntry(f);
    PagesFit(e.length, BitmapPages(total));
  }

  // A page that is free after pmm_init lies in a usable entry, is not page 0 and is not one of
  // the bitmap's own pages.
  lemma InitProtects(mmap: seq<MemmapEntry>, bits: seq<bool>, k: nat, p: nat)
    requires LimineMap(mmap) && k < |mmap| && CanHoldBitmap(mmap[k], |bits|)
    requires InitialBits(mmap, bits, mmap[k].base / PAGE_SIZE)
    requires p < |bits| && !bits[p]
    ensures exists l :: 0 <= l < |mmap| && mmap[l].usable
                        && mmap[l].base <= p * PAGE_SIZE && (p + 1) * PAGE_SIZE <= mmap[l].base + mmap[l].length
    ensures p != 0
    ensures !(mmap[k].base / PAGE_SIZE <= p < mmap[k].base / PAGE_SIZE + BitmapPages(|bits|))
  {
    var l :| 0 <= l < |mmap| && Offered(mmap[l], |bits|, p);
    AlignedEntry(mmap[l]);
    if mmap[k].base / PAGE_SIZE <= p < mmap[k].base / PAGE_SIZE + BitmapPages(|bits|) {
      BitmapNeverFree(mmap, k, |bits|, p);
    }
  }

  lemma AlignedEntry(e: MemmapEntry)
    requires e.base % PAGE_SIZE == 0 && e.length % PAGE_SIZE == 0
    ensures EntryStart(e) == e.base / PAGE_SIZE
    ensures EntryEnd(e) == e.base / PAGE_SIZE + e.length / PAGE_SIZE
    ensures e.base == e.base / PAGE_SIZE * PAGE_SIZE && e.length == e.length / PAGE_SIZE * PAGE_SIZE
  {
  }

  lemma PagesFit(length: nat, n: nat)
    requires length >= n * PAGE_SIZE
    ensures length / PAGE_SIZE >= n
  {
  }
}
