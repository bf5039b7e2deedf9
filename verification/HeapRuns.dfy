/** Runs of the kernel heap: any sequence of kmalloc and kfree calls, under either coalescing
    rule, against any supply of page frames.
  */
module HeapRuns {
  import opened Common
  import opened Pte
  import opened HeapSpec

  // ALIGN_UP(x, 8) on uint64_t: the addition wraps around.
  function Align8(x: nat): nat {
    (x + 7) % WORD_LIMIT / 8 * 8
  }

  // pg_needed in kmalloc, for an already aligned size: ALIGN_UP(size + HEADER_SIZE, PAGE_SIZE)
  // / PAGE_SIZE on uint64_t, and at least 1.
  function PagesNeeded(size: nat): (n: nat)
    ensures n > 0
  {
    var n := ((size + HEADER_SIZE) % WORD_LIMIT + PAGE_SIZE - 1) % WORD_LIMIT / PAGE_SIZE;
    if n == 0 then 1 else n
  }

  lemma Align8Multiple()
    ensures forall x: nat :: Align8(x) % 8 == 0
  {
  }

  // It rounds up to the next multiple of 8, by less than 8; the last seven sizes of 64 bits wrap to 0.
  lemma Align8Covers(x: nat)
    ensures x + 7 < WORD_LIMIT ==> x <= Align8(x) < x + 8 && Align8(x) % 8 == 0
    ensures x < WORD_LIMIT <= x + 7 ==> Align8(x) == 0
    ensures Granted(x) <= Align8(x)
  {
    if x + 7 < WORD_LIMIT {
      assert (x + 7) % WORD_LIMIT == x + 7;
    } else if x < WORD_LIMIT {
      assert (x + 7) % WORD_LIMIT == x + 7 - WORD_LIMIT < 7;
    }
  }

  // The bytes that a caller of kmalloc(bytes) is given: those he asked for, and none when the rounding
  // wraps around.
  function Granted(bytes: nat): nat { if bytes + 7 < WORD_LIMIT then bytes else 0 }

  // The recursive call of kmalloc aligns an aligned size again.
  lemma Align8Again(x: nat)
    ensures Align8(Align8(x)) == Align8(x)
  {
  }

  // The pages hold the size and a header, and one page fewer does not.
  lemma PagesNeededSuffice(size: nat)
    requires size + HEADER_SIZE + PAGE_SIZE <= WORD_LIMIT
    ensures (PagesNeeded(size) - 1) * PAGE_SIZE < size + HEADER_SIZE <= PagesNeeded(size) * PAGE_SIZE
  {
  }

  // Outcome of a kmalloc call: the heap it leaves, the index of the block it hands out and the
  // pages it consumed.
  datatype Outcome = Outcome(bs: seq<Block>, top: nat, at: Option<nat>, pages: nat)

  // kmalloc on an aligned size, when `supply` more heap pages can be had: search, else expand and
  // retry. The recursion ends because every round uses up at least one page.
  function Kmalloc(bs: seq<Block>, top: nat, size: nat, supply: nat, rule: Rule): Outcome
    decreases supply
  {
    var i := FirstFit(bs, size, 0);
    var n := PagesNeeded(size);
    if i < |bs| then Outcome(AllocAt(bs, i, size), top, Some(i), 0)
    else if supply < n then Outcome(Expand(bs, top, supply, rule), top + supply * PAGE_SIZE, None, supply)
    else
      var r := Kmalloc(Expand(bs, top, n, rule), top + n * PAGE_SIZE, size, supply - n, rule);
      r.(pages := r.pages + n)
  }

  // The three ways through kmalloc.
  lemma KmallocUnfolds(bs: seq<Block>, top: nat, size: nat)
    ensures FirstFit(bs, size, 0) < |bs| ==>
              Kmalloc(bs, top, size, 0, AsWritten)
              == Outcome(AllocAt(bs, FirstFit(bs, size, 0), size), top, Some(FirstFit(bs, size, 0)), 0)
  {
  }

  lemma KmallocGivesUp(bs: seq<Block>, top: nat, size: nat, supply: nat)
    requires FirstFit(bs, size, 0) == |bs| && supply < PagesNeeded(size)
    ensures Kmalloc(bs, top, size, supply, AsWritten)
            == Outcome(Expand(bs, top, supply, AsWritten), top + supply * PAGE_SIZE, None, supply)
  {
  }

  lemma KmallocRetries(bs: seq<Block>, top: nat, size: nat, supply: nat)
    requires FirstFit(bs, size, 0) == |bs| && supply >= PagesNeeded(size)
    ensures var n := PagesNeeded(size);
            var r := Kmalloc(Expand(bs, top, n, AsWritten), top + n * PAGE_SIZE, size, supply - n, AsWritten);
            Kmalloc(bs, top, size, supply, AsWritten) == r.(pages := r.pages + n)
  {
  }

  lemma {:induction false} KmallocTiles(bs: seq<Block>, lo: nat, top: nat, size: nat, supply: nat, rule: Rule)
    requires Tiles(bs, lo, top) && size % 8 == 0
    ensures var r := Kmalloc(bs, top, size, supply, rule);
            Tiles(r.bs, lo, r.top) && r.top == top + r.pages * PAGE_SIZE && r.pages <= supply
            && (r.at.Some? ==> r.at.value < |r.bs| && !r.bs[r.at.value].free && r.bs[r.at.value].size >= size)
    decreases supply
  {
    hide Expand, ExpandOne, Tiles, PagesNeeded, AllocAt;
    var i := FirstFit(bs, size, 0);
    var n := PagesNeeded(size);
    if i < |bs| {
      AllocTiles(bs, lo, top, i, size);
    } else if supply < n {
      ExpandTiles(bs, lo, top, supply, rule);
    } else {
      ExpandTiles(bs, lo, top, n, rule);
      KmallocTiles(Expand(bs, top, n, rule), lo, top + n * PAGE_SIZE, size, supply - n, rule);
    }
  }

  lemma ExpandTiles(bs: seq<Block>, lo: nat, top: nat, n: nat, rule: Rule)
    requires Tiles(bs, lo, top)
    ensures Tiles(Expand(bs, top, n, rule), lo, top + n * PAGE_SIZE)
  {
    if n > 0 {
      ExpandForm(bs, lo, top, n, rule);
    }
  }

  // As written, a request that fits nowhere while the last block is in use never succeeds: every
  // new page is glued onto that block, so the retry drains the whole supply and returns NULL.
  lemma {:induction false} UsedTailDrains(bs: seq<Block>, lo: nat, top: nat, size: nat, supply: nat)
    requires Tiles(bs, lo, top) && bs != [] && !bs[|bs| - 1].free && FirstFit(bs, size, 0) == |bs|
    ensures var r := Kmalloc(bs, top, size, supply, AsWritten);
            r.at == None && r.pages == supply
            && r.bs == bs[..|bs| - 1] + [bs[|bs| - 1].(size := bs[|bs| - 1].size + supply * PAGE_SIZE)]
    decreases supply
  {
    hide Expand, ExpandOne, Tiles, PagesNeeded, AllocAt;
    var n := PagesNeeded(size);
    if supply < n {
      ExpandNone(bs, top, AsWritten);
      if supply > 0 {
        ExpandForm(bs, lo, top, supply, AsWritten);
      }
    } else {
      ExpandForm(bs, lo, top, n, AsWritten);
      var grown := Expand(bs, top, n, AsWritten);
      forall k | 0 <= k < |grown| ensures !(grown[k].free && grown[k].size >= size) {
        assert k < |bs| - 1 ==> grown[k] == bs[k];
      }
      UsedTailDrains(grown, lo, top + n * PAGE_SIZE, size, supply - n);
    }
  }

  // In every other case one expansion is enough, under either rule.
  lemma OneExpansionSuffices(bs: seq<Block>, lo: nat, top: nat, size: nat, supply: nat, rule: Rule)
    requires Tiles(bs, lo, top) && size + HEADER_SIZE + PAGE_SIZE <= WORD_LIMIT
    requires rule == Documented || bs == [] || bs[|bs| - 1].free || FirstFit(bs, size, 0) < |bs|
    ensures var r := Kmalloc(bs, top, size, supply, rule);
            r.at.Some? <==> FirstFit(bs, size, 0) < |bs| || supply >= PagesNeeded(size)
    ensures var r := Kmalloc(bs, top, size, supply, rule);
            r.at.Some? ==> r.pages == if FirstFit(bs, size, 0) < |bs| then 0 else PagesNeeded(size)
  {
    var n := PagesNeeded(size);
    if FirstFit(bs, size, 0) == |bs| && supply >= n {
      PagesNeededSuffice(size);
      RetrySucceedsIff(bs, lo, top, n, size, rule);
    }
  }

  // ---- Runs ----

  datatype Op = Malloc(size: nat, supply: nat) | Free(block: Block)

  // `live` records what the callers hold: the blocks as they were handed out.
  datatype Heap = Heap(bs: seq<Block>, top: nat, live: set<Block>)

  // kheap_init(pages)
  function Init(pages: nat, rule: Rule): Heap {
    Heap(Expand([], HEAP_BASE, pages, rule), HEAP_BASE + pages * PAGE_SIZE, {})
  }

  function IndexOf(bs: seq<Block>, addr: nat): (i: nat)
    ensures i <= |bs|
    ensures i < |bs| ==> bs[i].addr == addr
    ensures forall k :: 0 <= k < i ==> bs[k].addr != addr
  {
    if bs == [] || bs[0].addr == addr then 0 else 1 + IndexOf(bs[1..], addr)
  }

  // kfree(p) as written. A pointer whose header is no longer listed, because a neighbour's release
  // swallowed it, reaches a header linked to itself: no listed block changes.
  function FreeListed(bs: seq<Block>, p: nat): seq<Block> {
    var i := if p >= HEADER_SIZE then IndexOf(bs, p - HEADER_SIZE) else |bs|;
    if i < |bs| then FreeAt(bs, i, AsWritten) else bs
  }

  function FreeEach(bs: seq<Block>, ps: seq<nat>): seq<Block> {
    if ps == [] then bs else FreeListed(FreeEach(bs, ps[..|ps| - 1]), ps[|ps| - 1])
  }

  function Step(h: Heap, op: Op, rule: Rule): Heap {
    match op
    case Malloc(size, supply) =>
      var r := Kmalloc(h.bs, h.top, Align8(size), supply, rule);
      Heap(r.bs, r.top, if r.at.Some? && r.at.value < |r.bs| then h.live + {r.bs[r.at.value]} else h.live)
    case Free(b) =>
      // callers free what they hold; the header must still be listed
      var i := IndexOf(h.bs, b.addr);
      if b in h.live && i < |h.bs| then h.(bs := FreeAt(h.bs, i, rule), live := h.live - {b}) else h
  }

  function Run(h: Heap, ops: seq<Op>, rule: Rule): Heap
    decreases |ops|
  {
    if ops == [] then h else Step(Run(h, ops[..|ops| - 1], rule), ops[|ops| - 1], rule)
  }

  // Every run keeps the heap tiled, as written too.
  lemma {:induction false} RunTiles(pages: nat, ops: seq<Op>, rule: Rule)
    ensures var h := Run(Init(pages, rule), ops, rule);
            Tiles(h.bs, HEAP_BASE, h.top) && Extent(h.bs) == h.top - HEAP_BASE
    decreases |ops|
  {
    hide Expand, ExpandOne, Tiles, PagesNeeded, Align8, FirstFit, AllocAt, FreeAt, Extent, Kmalloc;
    Align8Multiple();
    if ops == [] {
      EmptyHeapSafe();
      ExpandTiles([], HEAP_BASE, HEAP_BASE, pages, rule);
    } else {
      RunTiles(pages, ops[..|ops| - 1], rule);
      var h := Run(Init(pages, rule), ops[..|ops| - 1], rule);
      match ops[|ops| - 1] {
        case Malloc(size, supply) => KmallocTiles(h.bs, HEAP_BASE, h.top, Align8(size), supply, rule);
        case Free(b) =>
          if IndexOf(h.bs, b.addr) < |h.bs| {
            FreeTiles(h.bs, HEAP_BASE, h.top, IndexOf(h.bs, b.addr), rule);
          }
      }
    }
    var h := Run(Init(pages, rule), ops, rule);
    TilesExtent(h.bs, HEAP_BASE, h.top);
  }

  // ---- The documented rule is safe ----

  predicate NotBothFree(bs: seq<Block>, i: nat) {
    i + 1 < |bs| ==> !(bs[i].free && bs[i + 1].free)
  }

  ghost predicate Coalesced(bs: seq<Block>) {
    forall i: nat {:trigger NotBothFree(bs, i)} :: NotBothFree(bs, i)
  }

  ghost predicate Safe(h: Heap) {
    Tiles(h.bs, HEAP_BASE, h.top) && h.live == Used(h.bs) && Coalesced(h.bs)
  }

  lemma AllocNew(bs: seq<Block>, lo: nat, hi: nat, i: nat, size: nat)
    requires Tiles(bs, lo, hi) && i < |bs| && bs[i].free && bs[i].size >= size
    ensures AllocAt(bs, i, size)[i] !in Used(bs)
  {
    var b := AllocAt(bs, i, size)[i];
    if b in bs {
      BlocksDisjoint(bs, lo, hi, b, bs[i]);
    }
  }

  lemma AllocUsed(bs: seq<Block>, lo: nat, hi: nat, i: nat, size: nat)
    requires Tiles(bs, lo, hi) && i < |bs| && bs[i].free && bs[i].size >= size && size % 8 == 0
    ensures i < |AllocAt(bs, i, size)|
    ensures Used(AllocAt(bs, i, size)) == Used(bs) + {AllocAt(bs, i, size)[i]}
    ensures AllocAt(bs, i, size)[i] !in Used(bs)
    ensures Coalesced(bs) ==> Coalesced(AllocAt(bs, i, size))
  {
    AllocNew(bs, lo, hi, i, size);
    var r := AllocAt(bs, i, size);
    var shift := |r| - |bs|;
    assert r[..i] == bs[..i] && r[i + 1 + shift..] == bs[i + 1..];
    forall b | b in Used(r) ensures b in Used(bs) + {r[i]} {
      var k :| 0 <= k < |r| && r[k] == b;
      assert k < i ==> bs[k] == b;
      assert k > i && k - shift > i ==> bs[k - shift] == b;
    }
    forall b | b in Used(bs) + {r[i]} ensures b in Used(r) {
      if b != r[i] {
        var k :| 0 <= k < |bs| && bs[k] == b;
        assert if k < i then r[k] == b else r[k + shift] == b;
      }
    }
    if Coalesced(bs) {
      forall k: nat ensures NotBothFree(r, k) {
        assert NotBothFree(bs, k) && NotBothFree(bs, i);
        if k > 0 {
          assert NotBothFree(bs, k - 1);
        }
      }
    }
  }

  // The blocks on either side of the stretch that kfree makes one are in use.
  lemma EdgesInUse(bs: seq<Block>, lo: nat, hi: nat, i: nat)
    requires Tiles(bs, lo, hi) && Coalesced(bs) && i < |bs|
    ensures var from, to := FreeLo(bs, i, Documented), FreeHi(bs, i, Documented);
            && from <= i < to <= |bs|
            && (from > 0 ==> !bs[from - 1].free) && (to < |bs| ==> !bs[to].free)
  {
    assert Adjacent(bs, i) && NotBothFree(bs, i + 1);
    if i > 0 {
      assert Adjacent(bs, i - 1);
    }
    if i > 1 {
      assert NotBothFree(bs, i - 2);
    }
  }

  // A free block between two used ones.
  lemma SpliceCoalesced(bs: seq<Block>, from: nat, to: nat, mid: Block)
    requires from < to <= |bs| && Coalesced(bs)
    requires (from > 0 ==> !bs[from - 1].free) && (to < |bs| ==> !bs[to].free)
    ensures Coalesced(bs[..from] + [mid] + bs[to..])
  {
    var r := bs[..from] + [mid] + bs[to..];
    forall k: nat ensures NotBothFree(r, k) {
      if k + 1 < from {
        assert r[k] == bs[k] && r[k + 1] == bs[k + 1] && NotBothFree(bs, k);
      } else if k > from && k + 1 < |r| {
        var j := k - from - 1 + to;
        assert r[k] == bs[j] && r[k + 1] == bs[j + 1] && NotBothFree(bs, j);
      }
    }
  }

  lemma FreeCoalesces(bs: seq<Block>, lo: nat, hi: nat, i: nat)
    requires Tiles(bs, lo, hi) && Coalesced(bs) && i < |bs|
    ensures Coalesced(FreeAt(bs, i, Documented))
  {
    hide FreeAt, Tiles, Coalesced, FreeLo, FreeHi;
    EdgesInUse(bs, lo, hi, i);
    FreeShape(bs, i, Documented);
    var from := FreeLo(bs, i, Documented);
    SpliceCoalesced(bs, from, FreeHi(bs, i, Documented), FreeAt(bs, i, Documented)[from]);
  }

  lemma ExpandSafe(bs: seq<Block>, lo: nat, top: nat, n: nat)
    requires Tiles(bs, lo, top) && Coalesced(bs)
    ensures Used(Expand(bs, top, n, Documented)) == Used(bs) && Coalesced(Expand(bs, top, n, Documented))
  {
    hide Expand, ExpandOne, Tiles;
    ExpandNone(bs, top, Documented);
    if n > 0 {
      ExpandForm(bs, lo, top, n, Documented);
      var r := Expand(bs, top, n, Documented);
      forall b ensures b in Used(r) <==> b in Used(bs) {
        if b in Used(r) {
          var k :| 0 <= k < |r| && r[k] == b;
          assert bs[k] == b;
        }
        if b in Used(bs) {
          var k :| 0 <= k < |bs| && bs[k] == b;
          assert r[k] == b;
        }
      }
      forall k: nat ensures NotBothFree(r, k) {
        assert NotBothFree(bs, k);
      }
    }
  }

  lemma {:induction false} KmallocSafe(bs: seq<Block>, lo: nat, top: nat, size: nat, supply: nat)
    requires Tiles(bs, lo, top) && Coalesced(bs) && size % 8 == 0
    ensures var r := Kmalloc(bs, top, size, supply, Documented);
            Coalesced(r.bs)
            && (r.at.Some? ==>
                r.at.value < |r.bs| && Used(r.bs) == Used(bs) + {r.bs[r.at.value]}
                && r.bs[r.at.value] !in Used(bs))
            && (r.at.None? ==> Used(r.bs) == Used(bs))
    decreases supply
  {
    hide Expand, ExpandOne, Tiles, PagesNeeded, AllocAt, Used, Coalesced;
    var i := FirstFit(bs, size, 0);
    var n := PagesNeeded(size);
    if i < |bs| {
      AllocUsed(bs, lo, top, i, size);
    } else if supply < n {
      ExpandSafe(bs, lo, top, supply);
    } else {
      ExpandSafe(bs, lo, top, n);
      ExpandTiles(bs, lo, top, n, Documented);
      KmallocSafe(Expand(bs, top, n, Documented), lo, top + n * PAGE_SIZE, size, supply - n);
    }
  }

  lemma EmptyHeapSafe()
    ensures Tiles([], HEAP_BASE, HEAP_BASE) && Coalesced([]) && Used([]) == {}
  {
  }

  lemma IndexOfBlock(bs: seq<Block>, lo: nat, hi: nat, b: Block)
    requires Tiles(bs, lo, hi) && b in bs
    ensures IndexOf(bs, b.addr) < |bs| && bs[IndexOf(bs, b.addr)] == b
  {
    var k :| 0 <= k < |bs| && bs[k] == b;
    var i := IndexOf(bs, b.addr);
    if i < k {
      AddressesAscend(bs, lo, hi, i, k);
    }
  }

  // With the documented rule, after any run: what the callers hold is exactly the used blocks,
  // the blocks they hold are pairwise disjoint, and no two neighbouring blocks are both free.
  lemma {:induction false} DocumentedRunsAreSafe(pages: nat, ops: seq<Op>)
    ensures Safe(Run(Init(pages, Documented), ops, Documented))
    ensures var h := Run(Init(pages, Documented), ops, Documented);
            forall b, c :: b in h.live && c in h.live && b != c ==> b.End() <= c.addr || c.End() <= b.addr
    decreases |ops|
  {
    hide Expand, ExpandOne, Tiles, PagesNeeded, Align8, FirstFit, AllocAt, FreeAt, Extent, Kmalloc, Used, Coalesced;
    Align8Multiple();
    var h' := Run(Init(pages, Documented), ops, Documented);
    RunTiles(pages, ops, Documented);
    if ops == [] {
      EmptyHeapSafe();
      ExpandSafe([], HEAP_BASE, HEAP_BASE, pages);
    } else {
      DocumentedRunsAreSafe(pages, ops[..|ops| - 1]);
      var h := Run(Init(pages, Documented), ops[..|ops| - 1], Documented);
      match ops[|ops| - 1] {
        case Malloc(size, supply) => KmallocSafe(h.bs, HEAP_BASE, h.top, Align8(size), supply);
        case Free(b) =>
          if b in h.live {
            UsedIs(h.bs, b);
            IndexOfBlock(h.bs, HEAP_BASE, h.top, b);
            FreeIsExactIff(h.bs, HEAP_BASE, h.top, IndexOf(h.bs, b.addr), Documented);
            FreeCoalesces(h.bs, HEAP_BASE, h.top, IndexOf(h.bs, b.addr));
          }
      }
    }
    forall b, c | b in h'.live && c in h'.live && b != c ensures b.End() <= c.addr || c.End() <= b.addr {
      UsedIs(h'.bs, b);
      UsedIs(h'.bs, c);
      BlocksDisjoint(h'.bs, HEAP_BASE, h'.top, b, c);
    }
  }

  // ---- The code as written is not ----

  const A := Block(HEAP_BASE, 16, false)
  const B := Block(HEAP_BASE + 48, 16, false)
  const C := Block(HEAP_BASE, 64, false)
  const REST := Block(HEAP_BASE + 96, 3968, true)

  lemma TwoSmallBlocks()
    ensures Run(Init(1, AsWritten), [Malloc(16, 0), Malloc(16, 0)], AsWritten)
            == Heap([A, B, REST], HEAP_BASE + PAGE_SIZE, {A, B})
  {
    var h0 := Init(1, AsWritten);
    assert h0.bs == [Block(HEAP_BASE, 4064, true)];
    var h1 := Step(h0, Malloc(16, 0), AsWritten);
    assert h1.bs == [A, Block(HEAP_BASE + 48, 4016, true)];
    var h2 := Step(h1, Malloc(16, 0), AsWritten);
    assert h2.bs == [A, B, REST];
    RunStep(h0, [], Malloc(16, 0));
    RunStep(h0, [Malloc(16, 0)], Malloc(16, 0));
  }

  lemma ReleaseSwallows()
    ensures Step(Heap([A, B, REST], HEAP_BASE + PAGE_SIZE, {A, B}), Free(A), AsWritten)
            == Heap([C.(free := true), REST], HEAP_BASE + PAGE_SIZE, {B})
  {
    assert FreeAt([A, B, REST], 0, AsWritten) == [C.(free := true), REST];
  }

  lemma ReuseOverlaps()
    ensures Step(Heap([C.(free := true), REST], HEAP_BASE + PAGE_SIZE, {B}), Malloc(64, 0), AsWritten)
            == Heap([C, REST], HEAP_BASE + PAGE_SIZE, {B, C})
  {
    assert FirstFit([C.(free := true), REST], 64, 0) == 0;
    assert AllocAt([C.(free := true), REST], 0, 64) == [C, REST];
  }

  // Two small blocks A and B; releasing A swallows B; the next request is then given memory
  // that overlaps B, which its owner still holds.
  lemma AsWrittenOverlaps()
    ensures var h := Run(Init(1, AsWritten), [Malloc(16, 0), Malloc(16, 0), Free(A), Malloc(64, 0)], AsWritten);
            B in h.live && C in h.live && C.addr < B.addr && B.End() <= C.End()
  {
    hide Step, Init, Run;
    var ops := [Malloc(16, 0), Malloc(16, 0)];
    TwoSmallBlocks();
    RunStep(Init(1, AsWritten), ops, Free(A));
    ReleaseSwallows();
    RunStep(Init(1, AsWritten), ops + [Free(A)], Malloc(64, 0));
    ReuseOverlaps();
    assert ops + [Free(A)] + [Malloc(64, 0)] == [Malloc(16, 0), Malloc(16, 0), Free(A), Malloc(64, 0)];
  }

  lemma RunStep(h: Heap, ops: seq<Op>, op: Op)
    ensures Run(h, ops + [op], AsWritten) == Step(Run(h, ops, AsWritten), op, AsWritten)
  {
    assert (ops + [op])[..|ops|] == ops;
  }
}
