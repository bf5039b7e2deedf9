/** The kernel heap as a sequence of blocks (kmalloc, kfree and kheap_expand in
    kernel/src/mm/pmm.c), and what holds of it over every run.

    The coalescing rule is a parameter. AsWritten is the code: a neighbour is absorbed whenever
    it is adjacent. Documented is README.md lines 508-515: the neighbour must also be free.
  */
module HeapSpec {
  import opened Common

  const HEAP_BASE: nat := 0xFFFF_9000_0000_0000
  const HEADER_SIZE: nat := 32
  const MIN_SPLIT: nat := 16

  // A listed header: its address, the size of its data area and its is_free flag.
  datatype Block = Block(addr: nat, size: nat, free: bool) {
    function End(): nat { addr + HEADER_SIZE + size }
  }

  datatype Rule = AsWritten | Documented

  // ---- Tiling ----

  predicate Adjacent(bs: seq<Block>, i: nat) {
    i + 1 < |bs| ==> bs[i].End() == bs[i + 1].addr
  }

  // The blocks cover [lo, hi) exactly, in address order, in multiples of 8 bytes.
  ghost predicate Tiles(bs: seq<Block>, lo: nat, hi: nat) {
    && (if bs == [] then lo == hi else bs[0].addr == lo && bs[|bs| - 1].End() == hi)
    && (forall i: nat {:trigger Adjacent(bs, i)} :: Adjacent(bs, i))
    && (forall i :: 0 <= i < |bs| ==> bs[i].size % 8 == 0)
  }

  lemma {:induction false} AddressesAscend(bs: seq<Block>, lo: nat, hi: nat, i: nat, j: nat)
    requires Tiles(bs, lo, hi) && i < j < |bs|
    ensures lo <= bs[i].addr && bs[i].End() <= bs[j].addr && bs[j].End() <= hi
  {
    assert Adjacent(bs, j - 1);
    if i + 1 < j {
      AddressesAscend(bs, lo, hi, i, j - 1);
    } else if i > 0 {
      AddressesAscend(bs, lo, hi, 0, i);
    }
    if j + 1 < |bs| {
      EndBound(bs, lo, hi, j);
    }
  }

  lemma {:induction false} EndBound(bs: seq<Block>, lo: nat, hi: nat, i: nat)
    requires Tiles(bs, lo, hi) && i < |bs|
    ensures lo <= bs[i].addr && bs[i].End() <= hi
    decreases |bs| - i
  {
    if i + 1 < |bs| {
      EndBound(bs, lo, hi, i + 1);
      assert Adjacent(bs, i);
    }
    StartBound(bs, lo, hi, i);
  }

  lemma {:induction false} StartBound(bs: seq<Block>, lo: nat, hi: nat, i: nat)
    requires Tiles(bs, lo, hi) && i < |bs|
    ensures lo <= bs[i].addr
  {
    if i > 0 {
      StartBound(bs, lo, hi, i - 1);
      assert Adjacent(bs, i - 1);
    }
  }

  // The sum of size plus header over all blocks.
  function Extent(bs: seq<Block>): nat {
    if bs == [] then 0 else Extent(bs[..|bs| - 1]) + HEADER_SIZE + bs[|bs| - 1].size
  }

  lemma {:induction false} TilesExtent(bs: seq<Block>, lo: nat, hi: nat)
    requires Tiles(bs, lo, hi)
    ensures Extent(bs) == hi - lo
  {
    if |bs| > 0 {
      var rest := bs[..|bs| - 1];
      assert forall i: nat :: Adjacent(bs, i) ==> Adjacent(rest, i);
      assert Adjacent(bs, |bs| - 2 + if |bs| == 1 then 1 else 0);
      TilesExtent(rest, lo, bs[|bs| - 1].addr);
    }
  }

  // ---- Allocation ----

  // first_fit: index of the first free block of at least `size` bytes, |bs| when there is none.
  function FirstFit(bs: seq<Block>, size: nat, from: nat): (i: nat)
    requires from <= |bs|
    ensures from <= i <= |bs|
    ensures i < |bs| ==> bs[i].free && bs[i].size >= size
    ensures forall k :: from <= k < i ==> !(bs[k].free && bs[k].size >= size)
    decreases |bs| - from
  {
    if from == |bs| || (bs[from].free && bs[from].size >= size) then from else FirstFit(bs, size, from + 1)
  }

  // Some free block holds `size` bytes.
  predicate Fits(bs: seq<Block>, size: nat) { FirstFit(bs, size, 0) < |bs| }

  // New pages form a free block with the last one.
  predicate TailFree(bs: seq<Block>) { bs == [] || bs[|bs| - 1].free }

  // Block i is handed out, its tail split off when at least MIN_SPLIT bytes would remain.
  function AllocAt(bs: seq<Block>, i: nat, size: nat): seq<Block>
    requires i < |bs| && bs[i].size >= size
  {
    var b := bs[i];
    if b.size >= size + HEADER_SIZE + MIN_SPLIT then
      bs[..i] + [Block(b.addr, size, false), Block(b.addr + HEADER_SIZE + size, b.size - size - HEADER_SIZE, true)]
      + bs[i + 1..]
    else bs[i := b.(free := false)]
  }

  // The block handed out wastes less than a header and MIN_SPLIT bytes; what is split off is at least
  // MIN_SPLIT bytes, free, and right behind it; the blocks before and after are as they were.
  lemma AllocWaste(bs: seq<Block>, i: nat, size: nat)
    requires i < |bs| && bs[i].size >= size
    ensures var r := AllocAt(bs, i, size);
            && i < |r| && r[i].addr == bs[i].addr && !r[i].free
            && size <= r[i].size < size + HEADER_SIZE + MIN_SPLIT
            && r[..i] == bs[..i]
            && if |r| == |bs| then r[i].size == bs[i].size && r[i + 1..] == bs[i + 1..]
               else
                 && |r| == |bs| + 1 && r[i].size == size && r[i + 2..] == bs[i + 1..]
                 && r[i + 1].free && r[i + 1].size >= MIN_SPLIT
                 && r[i + 1].addr == r[i].End() && r[i + 1].End() == bs[i].End()
  {
  }

  // The first fit is handed out, if there is one; n times.
  function AllocFirst(bs: seq<Block>, size: nat): seq<Block> {
    if Fits(bs, size) then AllocAt(bs, FirstFit(bs, size, 0), size) else bs
  }

  function AllocMany(bs: seq<Block>, size: nat, n: nat): seq<Block> {
    if n == 0 then bs else AllocFirst(AllocMany(bs, size, n - 1), size)
  }

  lemma NextFirst(bs: seq<Block>, size: nat, n: nat)
    ensures AllocMany(bs, size, 0) == bs
    ensures Fits(AllocMany(bs, size, n), size) ==>
              AllocMany(bs, size, n + 1)
              == AllocAt(AllocMany(bs, size, n), FirstFit(AllocMany(bs, size, n), size, 0), size)
  {
  }

  lemma AllocTiles(bs: seq<Block>, lo: nat, hi: nat, i: nat, size: nat)
    requires Tiles(bs, lo, hi) && i < |bs| && bs[i].size >= size && size % 8 == 0
    ensures Tiles(AllocAt(bs, i, size), lo, hi)
    ensures i < |AllocAt(bs, i, size)|
    ensures var b := AllocAt(bs, i, size)[i]; !b.free && b.size >= size && b.addr == bs[i].addr
  {
    var r := AllocAt(bs, i, size);
    forall k: nat ensures Adjacent(r, k) {
      assert Adjacent(bs, k);
      if |r| == |bs| + 1 && k > 0 {
        assert Adjacent(bs, k - 1);
      }
    }
  }

  // Some free block has at least w bytes.
  predicate HasRoom(bs: seq<Block>, w: nat) {
    w == 0 || exists i :: 0 <= i < |bs| && bs[i].free && bs[i].size >= w
  }

  // Room is used up by one header and one data area per allocation, wherever first fit puts them.
  lemma RoomLeft(bs: seq<Block>, size: nat, w: nat)
    requires HasRoom(bs, w) && (w == size + HEADER_SIZE || w >= size + HEADER_SIZE + MIN_SPLIT)
    ensures FirstFit(bs, size, 0) < |bs|
    ensures HasRoom(AllocAt(bs, FirstFit(bs, size, 0), size), w - size - HEADER_SIZE)
  {
    var k :| 0 <= k < |bs| && bs[k].free && bs[k].size >= w;
    var i := FirstFit(bs, size, 0);
    var r := AllocAt(bs, i, size);
    if w > size + HEADER_SIZE {
      var j := if k < i then k else if |r| == |bs| then k else k + 1;
      assert r[j].free && r[j].size >= w - size - HEADER_SIZE;
    }
  }

  // ---- Release ----

  // Absorb block i + 1 into block i.
  function MergeNext(bs: seq<Block>, i: nat): seq<Block>
    requires i + 1 < |bs|
  {
    bs[..i] + [bs[i].(size := bs[i].size + bs[i + 1].size + HEADER_SIZE)] + bs[i + 2..]
  }

  predicate MayMerge(b: Block, rule: Rule) {
    rule == AsWritten || b.free
  }

  // kfree of block i: mark it free, absorb the next block, be absorbed by the previous one.
  function FreeForward(bs: seq<Block>, i: nat, rule: Rule): (r: seq<Block>)
    requires i < |bs|
    ensures i < |r| && r[..i] == bs[..i]
  {
    var marked := bs[i := bs[i].(free := true)];
    if i + 1 < |bs| && bs[i].End() == bs[i + 1].addr && MayMerge(bs[i + 1], rule)
    then MergeNext(marked, i) else marked
  }

  function FreeAt(bs: seq<Block>, i: nat, rule: Rule): seq<Block>
    requires i < |bs|
  {
    var r := FreeForward(bs, i, rule);
    if i > 0 && r[i - 1].End() == r[i].addr && MayMerge(r[i - 1], rule) then MergeNext(r, i - 1) else r
  }

  lemma {:induction false} MergeTiles(bs: seq<Block>, lo: nat, hi: nat, i: nat)
    requires Tiles(bs, lo, hi) && i + 1 < |bs|
    ensures Tiles(MergeNext(bs, i), lo, hi)
  {
    var r := MergeNext(bs, i);
    assert Adjacent(bs, i);
    assert forall k :: 0 <= k < i ==> r[k] == bs[k];
    assert forall k :: i < k < |r| ==> r[k] == bs[k + 1];
    forall k: nat ensures Adjacent(r, k) {
      assert Adjacent(bs, k) && Adjacent(bs, k + 1);
    }
  }

  lemma MarkTiles(bs: seq<Block>, lo: nat, hi: nat, i: nat, free: bool)
    requires Tiles(bs, lo, hi) && i < |bs|
    ensures Tiles(bs[i := bs[i].(free := free)], lo, hi)
  {
    var marked := bs[i := bs[i].(free := free)];
    forall k: nat ensures Adjacent(marked, k) {
      assert Adjacent(bs, k);
    }
  }

  lemma FreeTiles(bs: seq<Block>, lo: nat, hi: nat, i: nat, rule: Rule)
    requires Tiles(bs, lo, hi) && i < |bs|
    ensures Tiles(FreeForward(bs, i, rule), lo, hi)
    ensures Tiles(FreeAt(bs, i, rule), lo, hi)
  {
    MarkTiles(bs, lo, hi, i, true);
    var marked := bs[i := bs[i].(free := true)];
    if i + 1 < |bs| {
      MergeTiles(marked, lo, hi, i);
    }
    var r := FreeForward(bs, i, rule);
    if i > 0 {
      MergeTiles(r, lo, hi, i - 1);
    }
  }

  // ---- Expansion ----

  // One round of kheap_expand: the page at `top` is listed as a used block and then freed.
  function ExpandOne(bs: seq<Block>, top: nat, rule: Rule): seq<Block> {
    FreeAt(bs + [Block(top, PAGE_SIZE - HEADER_SIZE, false)], |bs|, rule)
  }

  function Expand(bs: seq<Block>, top: nat, n: nat, rule: Rule): seq<Block>
    decreases n
  {
    if n == 0 then bs else ExpandOne(Expand(bs, top, n - 1, rule), top + (n - 1) * PAGE_SIZE, rule)
  }

  lemma ExpandOneTiles(bs: seq<Block>, lo: nat, top: nat, rule: Rule)
    requires Tiles(bs, lo, top)
    ensures Tiles(ExpandOne(bs, top, rule), lo, top + PAGE_SIZE)
  {
    var listed := bs + [Block(top, PAGE_SIZE - HEADER_SIZE, false)];
    forall k: nat ensures Adjacent(listed, k) {
      assert Adjacent(bs, k);
    }
    FreeTiles(listed, lo, top + PAGE_SIZE, |bs|, rule);
  }

  // What a new page does: it becomes a free block of its own, or joins the last block. The
  // code joins it to the last block whether or not that block is free.
  lemma ExpandOneForm(bs: seq<Block>, lo: nat, top: nat, rule: Rule)
    requires Tiles(bs, lo, top)
    ensures ExpandOne(bs, top, rule) ==
            if bs != [] && MayMerge(bs[|bs| - 1], rule)
            then bs[..|bs| - 1] + [bs[|bs| - 1].(size := bs[|bs| - 1].size + PAGE_SIZE)]
            else bs + [Block(top, PAGE_SIZE - HEADER_SIZE, true)]
  {
  }

  lemma ExpandNone(bs: seq<Block>, top: nat, rule: Rule)
    ensures Expand(bs, top, 0, rule) == bs
  {
  }

  lemma {:induction false} ExpandForm(bs: seq<Block>, lo: nat, top: nat, n: nat, rule: Rule)
    requires Tiles(bs, lo, top) && n > 0
    ensures Tiles(Expand(bs, top, n, rule), lo, top + n * PAGE_SIZE)
    ensures Expand(bs, top, n, rule) ==
            if bs != [] && MayMerge(bs[|bs| - 1], rule)
            then bs[..|bs| - 1] + [bs[|bs| - 1].(size := bs[|bs| - 1].size + n * PAGE_SIZE)]
            else bs + [Block(top, n * PAGE_SIZE - HEADER_SIZE, true)]
    decreases n
  {
    hide Tiles, ExpandOne;
    ExpandNone(bs, top, rule);
    if n > 1 {
      ExpandForm(bs, lo, top, n - 1, rule);
    }
    var before := Expand(bs, top, n - 1, rule);
    ExpandOneTiles(before, lo, top + (n - 1) * PAGE_SIZE, rule);
    ExpandOneForm(before, lo, top + (n - 1) * PAGE_SIZE, rule);
    if bs != [] && MayMerge(bs[|bs| - 1], rule) && n > 1 {
      assert before[..|before| - 1] == bs[..|bs| - 1];
    } else if n > 1 {
      assert before[..|before| - 1] == bs;
    }
  }

  // ---- Does the retry of kmalloc find a block? ----

  // After a failed search and an expansion by n pages that could hold the request, the retry
  // succeeds exactly when the new pages formed a free block: always under the documented
  // rule, and as written only if the heap was empty or its last block free.
  lemma RetrySucceedsIff(bs: seq<Block>, lo: nat, top: nat, n: nat, size: nat, rule: Rule)
    requires Tiles(bs, lo, top) && FirstFit(bs, size, 0) == |bs|
    requires n > 0 && n * PAGE_SIZE >= size + HEADER_SIZE
    ensures var grown := Expand(bs, top, n, rule);
            FirstFit(grown, size, 0) < |grown| <==> rule == Documented || bs == [] || bs[|bs| - 1].free
  {
    ExpandForm(bs, lo, top, n, rule);
    var grown := Expand(bs, top, n, rule);
    if rule == Documented || bs == [] || bs[|bs| - 1].free {
      assert grown[|grown| - 1].free && grown[|grown| - 1].size >= size;
    } else {
      forall k | 0 <= k < |grown| ensures !(grown[k].free && grown[k].size >= size) {
        assert k < |bs| - 1 ==> grown[k] == bs[k];
      }
    }
  }

  // ---- Live blocks ----

  // The blocks handed out and not released, as the list sees them.
  function Used(bs: seq<Block>): set<Block> {
    set b | b in bs && !b.free
  }

  lemma UsedIs(bs: seq<Block>, b: Block)
    ensures b in Used(bs) <==> b in bs && !b.free
  {
  }

  // Blocks of a tiled heap never overlap, headers included.
  lemma BlocksDisjoint(bs: seq<Block>, lo: nat, hi: nat, b: Block, c: Block)
    requires Tiles(bs, lo, hi) && b in bs && c in bs && b != c
    ensures b.End() <= c.addr || c.End() <= b.addr
  {
    var i :| 0 <= i < |bs| && bs[i] == b;
    var j :| 0 <= j < |bs| && bs[j] == c;
    if i < j {
      AddressesAscend(bs, lo, hi, i, j);
    } else {
      AddressesAscend(bs, lo, hi, j, i);
    }
  }

  predicate NeighboursFree(bs: seq<Block>, i: nat)
    requires i < |bs|
  {
    (i + 1 < |bs| ==> bs[i + 1].free) && (i > 0 ==> bs[i - 1].free)
  }

  // kfree as written releases exactly its argument if and only if the neighbours are free;
  // otherwise a block still in use is swallowed or resized. The documented rule always does.
  lemma FreeIsExactIff(bs: seq<Block>, lo: nat, hi: nat, i: nat, rule: Rule)
    requires Tiles(bs, lo, hi) && i < |bs| && !bs[i].free
    ensures Used(FreeAt(bs, i, rule)) == Used(bs) - {bs[i]} <==> rule == Documented || NeighboursFree(bs, i)
  {
    var r := FreeAt(bs, i, rule);
    FreeTiles(bs, lo, hi, i, rule);
    assert Adjacent(bs, i);
    if i > 0 {
      assert Adjacent(bs, i - 1);
    }
    if rule == AsWritten && i > 0 && !bs[i - 1].free {
      // the previous block grew
      assert r[i - 1].addr == bs[i - 1].addr && r[i - 1].size > bs[i - 1].size && !r[i - 1].free;
      assert bs[i - 1] in Used(bs) - {bs[i]};
      if bs[i - 1] in r {
        BlocksDisjoint(r, lo, hi, bs[i - 1], r[i - 1]);
      }
    } else if rule == AsWritten && i + 1 < |bs| && !bs[i + 1].free {
      // the next block vanished into a larger free block
      var k := if i > 0 then i - 1 else i;
      assert r[k].free && r[k].addr < bs[i + 1].addr && bs[i + 1].End() <= r[k].End();
      assert bs[i + 1] in Used(bs) - {bs[i]};
      if bs[i + 1] in r {
        BlocksDisjoint(r, lo, hi, bs[i + 1], r[k]);
      }
    } else {
      FreeKeepsOthers(bs, lo, hi, i, rule);
    }
  }

  // First block of the stretch that kfree of block i turns into one, and the block behind it.
  function FreeLo(bs: seq<Block>, i: nat, rule: Rule): nat
    requires i < |bs|
  {
    if i > 0 && bs[i - 1].End() == bs[i].addr && MayMerge(bs[i - 1], rule) then i - 1 else i
  }

  function FreeHi(bs: seq<Block>, i: nat, rule: Rule): nat
    requires i < |bs|
  {
    if i + 1 < |bs| && bs[i].End() == bs[i + 1].addr && MayMerge(bs[i + 1], rule) then i + 2 else i + 1
  }

  lemma {:induction false} ForwardShape(bs: seq<Block>, i: nat, rule: Rule)
    requires i < |bs|
    ensures var hi, r := FreeHi(bs, i, rule), FreeForward(bs, i, rule);
            r == bs[..i] + [r[i]] + bs[hi..] && r[i].addr == bs[i].addr && r[i].free
  {
  }

  lemma {:induction false} FreeShape(bs: seq<Block>, i: nat, rule: Rule)
    requires i < |bs|
    ensures var lo, hi, r := FreeLo(bs, i, rule), FreeHi(bs, i, rule), FreeAt(bs, i, rule);
            lo < |r| && r == bs[..lo] + [r[lo]] + bs[hi..]
            && r[lo].addr == bs[lo].addr && r[lo].free == (lo == i || bs[lo].free)
  {
    hide FreeForward;
    ForwardShape(bs, i, rule);
    var r, hi := FreeForward(bs, i, rule), FreeHi(bs, i, rule);
    assert i > 0 ==> r[i - 1] == bs[i - 1];
    if FreeLo(bs, i, rule) < i {
      assert r[..i - 1] == bs[..i - 1] && r[i + 1..] == bs[hi..];
    }
  }

  // Replacing a stretch whose only used block is block i by one free block.
  lemma SpliceUsed(bs: seq<Block>, from: nat, i: nat, to: nat, mid: Block)
    requires from <= i < to <= |bs| && mid.free && !bs[i].free
    requires forall k :: from <= k < to && k != i ==> bs[k].free
    requires forall k :: 0 <= k < |bs| && k != i ==> bs[k] != bs[i]
    ensures Used(bs[..from] + [mid] + bs[to..]) == Used(bs) - {bs[i]}
  {
    var r := bs[..from] + [mid] + bs[to..];
    forall b | b in Used(r) ensures b in Used(bs) - {bs[i]} {
      var k :| 0 <= k < |r| && r[k] == b;
      if k > from {
        assert b == bs[k - from - 1 + to];
      }
    }
    forall b | b in Used(bs) - {bs[i]} ensures b in Used(r) {
      var k :| 0 <= k < |bs| && bs[k] == b;
      if k >= to {
        assert b == r[k - to + from + 1];
      } else {
        assert b == r[k];
      }
    }
  }

  lemma FreeKeepsOthers(bs: seq<Block>, lo: nat, hi: nat, i: nat, rule: Rule)
    requires Tiles(bs, lo, hi) && i < |bs| && !bs[i].free && (rule == Documented || NeighboursFree(bs, i))
    ensures Used(FreeAt(bs, i, rule)) == Used(bs) - {bs[i]}
  {
    hide FreeAt, Used;
    FreeShape(bs, i, rule);
    forall k | 0 <= k < |bs| && k != i ensures bs[k] != bs[i] {
      UsedElsewhere(bs, lo, hi, i, k);
    }
    SpliceUsed(bs, FreeLo(bs, i, rule), i, FreeHi(bs, i, rule), FreeAt(bs, i, rule)[FreeLo(bs, i, rule)]);
  }

  lemma UsedElsewhere(bs: seq<Block>, lo: nat, hi: nat, i: nat, k: nat)
    requires Tiles(bs, lo, hi) && i < |bs| && k < |bs| && k != i
    ensures bs[k] != bs[i]
  {
    if k < i {
      AddressesAscend(bs, lo, hi, k, i);
    } else {
      AddressesAscend(bs, lo, hi, i, k);
    }
  }
}
