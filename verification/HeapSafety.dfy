/** When the heap as written is safe: exactly along the runs whose calls meet a condition that the
    caller could check before each call (kernel/src/mm/pmm.c:200-255).
  */
module HeapSafety {
  import opened Common
  import opened Pte
  import opened HeapSpec
  import opened HeapRuns

  // kmalloc: a block fits, or no page can be had, or the last block is free. kfree: the
  // neighbours of the block are free.
  predicate Careful(h: Heap, op: Op) {
    match op
    case Malloc(size, supply) => FirstFit(h.bs, Align8(size), 0) < |h.bs| || supply == 0 || TailFree(h.bs)
    case Free(b) =>
      var i := IndexOf(h.bs, b.addr);
      b in h.live && i < |h.bs| ==> NeighboursFree(h.bs, i)
  }

  // ---- A careful call does what the documented rule does ----

  lemma CarefulFree(bs: seq<Block>, i: nat)
    requires i < |bs| && NeighboursFree(bs, i)
    ensures FreeAt(bs, i, AsWritten) == FreeAt(bs, i, Documented)
  {
    assert FreeForward(bs, i, AsWritten) == FreeForward(bs, i, Documented);
    assert i > 0 ==> FreeForward(bs, i, AsWritten)[..i][i - 1] == bs[i - 1];
  }

  lemma GrowthSame(bs: seq<Block>, lo: nat, top: nat, n: nat)
    requires Tiles(bs, lo, top) && TailFree(bs)
    ensures Expand(bs, top, n, AsWritten) == Expand(bs, top, n, Documented)
    ensures TailFree(Expand(bs, top, n, AsWritten)) && Tiles(Expand(bs, top, n, AsWritten), lo, top + n * PAGE_SIZE)
  {
    hide Expand, Tiles;
    ExpandNone(bs, top, AsWritten);
    ExpandNone(bs, top, Documented);
    if n > 0 {
      ExpandForm(bs, lo, top, n, AsWritten);
      ExpandForm(bs, lo, top, n, Documented);
    }
  }

  lemma {:induction false} CarefulMalloc(bs: seq<Block>, lo: nat, top: nat, size: nat, supply: nat)
    requires Tiles(bs, lo, top) && (FirstFit(bs, size, 0) < |bs| || supply == 0 || TailFree(bs))
    ensures Kmalloc(bs, top, size, supply, AsWritten) == Kmalloc(bs, top, size, supply, Documented)
    decreases supply
  {
    hide Expand, Tiles, PagesNeeded, AllocAt;
    ExpandNone(bs, top, AsWritten);
    ExpandNone(bs, top, Documented);
    var n := PagesNeeded(size);
    if FirstFit(bs, size, 0) == |bs| && TailFree(bs) {
      GrowthSame(bs, lo, top, supply);
      if supply >= n {
        GrowthSame(bs, lo, top, n);
        CarefulMalloc(Expand(bs, top, n, AsWritten), lo, top + n * PAGE_SIZE, size, supply - n);
      }
    }
  }

  lemma CarefulStep(h: Heap, op: Op)
    requires Safe(h) && Careful(h, op)
    ensures Step(h, op, AsWritten) == Step(h, op, Documented)
  {
    hide Tiles, Kmalloc, FreeAt, Align8, Used, Coalesced;
    match op
    case Malloc(size, supply) => CarefulMalloc(h.bs, HEAP_BASE, h.top, Align8(size), supply);
    case Free(b) =>
      if b in h.live && IndexOf(h.bs, b.addr) < |h.bs| {
        CarefulFree(h.bs, IndexOf(h.bs, b.addr));
      }
  }

  // ---- One step of a safe heap ----

  lemma DocumentedStep(h: Heap, op: Op)
    requires Safe(h)
    ensures Safe(Step(h, op, Documented))
  {
    hide Tiles, Kmalloc, FreeAt, Align8, Used, Coalesced;
    Align8Multiple();
    match op
    case Malloc(size, supply) =>
      KmallocSafe(h.bs, HEAP_BASE, h.top, Align8(size), supply);
      KmallocTiles(h.bs, HEAP_BASE, h.top, Align8(size), supply, Documented);
    case Free(b) =>
      if b in h.live {
        UsedIs(h.bs, b);
        IndexOfBlock(h.bs, HEAP_BASE, h.top, b);
        var i := IndexOf(h.bs, b.addr);
        FreeIsExactIff(h.bs, HEAP_BASE, h.top, i, Documented);
        FreeCoalesces(h.bs, HEAP_BASE, h.top, i);
        FreeTiles(h.bs, HEAP_BASE, h.top, i, Documented);
      }
  }

  // A used block that grows is no longer what its holder was given.
  lemma DrainedIsUnsafe(h: Heap, size: nat, supply: nat)
    requires Safe(h) && !Careful(h, Malloc(size, supply))
    ensures var h' := Step(h, Malloc(size, supply), AsWritten); h'.live != Used(h'.bs)
  {
    hide Kmalloc, Align8, Coalesced;
    UsedTailDrains(h.bs, HEAP_BASE, h.top, Align8(size), supply);
    var h' := Step(h, Malloc(size, supply), AsWritten);
    var k := |h.bs| - 1;
    var grown := h.bs[k].(size := h.bs[k].size + supply * PAGE_SIZE);
    assert h'.bs[k] == grown && grown in Used(h'.bs);
    if grown in h.bs {
      BlocksDisjoint(h.bs, HEAP_BASE, h.top, grown, h.bs[k]);
    }
  }

  // From a safe heap, a call keeps the blocks that callers hold and the used blocks the same if and
  // only if it is careful; then it is what the documented rule does, and the heap stays safe.
  lemma StepSafeIff(h: Heap, op: Op)
    requires Safe(h)
    ensures var h' := Step(h, op, AsWritten); h'.live == Used(h'.bs) <==> Careful(h, op)
    ensures Careful(h, op) ==> Step(h, op, AsWritten) == Step(h, op, Documented) && Safe(Step(h, op, AsWritten))
  {
    hide Tiles, Kmalloc, FreeAt, Align8, Used, Coalesced, Step;
    if Careful(h, op) {
      CarefulStep(h, op);
      DocumentedStep(h, op);
    } else if op.Malloc? {
      DrainedIsUnsafe(h, op.size, op.supply);
    } else {
      CarelessFree(h, op.block);
    }
  }

  lemma CarelessFree(h: Heap, b: Block)
    requires Safe(h) && !Careful(h, Free(b))
    ensures var h' := Step(h, Free(b), AsWritten); h'.live != Used(h'.bs)
  {
    hide Tiles, FreeAt, Used, Coalesced;
    UsedIs(h.bs, b);
    IndexOfBlock(h.bs, HEAP_BASE, h.top, b);
    FreeIsExactIff(h.bs, HEAP_BASE, h.top, IndexOf(h.bs, b.addr), AsWritten);
  }

  // ---- Whole runs ----

  ghost predicate CarefulRun(pages: nat, ops: seq<Op>) {
    forall n {:trigger ops[n]} :: 0 <= n < |ops| ==> Careful(Run(Init(pages, AsWritten), ops[..n], AsWritten), ops[n])
  }

  // After n calls the used blocks are exactly what the callers hold.
  ghost predicate HonestAt(pages: nat, ops: seq<Op>, n: nat)
    requires n <= |ops|
  {
    var h := Run(Init(pages, AsWritten), ops[..n], AsWritten);
    h.live == Used(h.bs)
  }

  lemma InitSame(pages: nat)
    ensures Init(pages, AsWritten) == Init(pages, Documented) && Safe(Init(pages, AsWritten))
  {
    hide Expand, Tiles;
    EmptyHeapSafe();
    GrowthSame([], HEAP_BASE, HEAP_BASE, pages);
    ExpandSafe([], HEAP_BASE, HEAP_BASE, pages);
  }

  // A run along careful calls is the documented run, and safe.
  lemma {:induction false} CarefulRunsAreSafe(pages: nat, ops: seq<Op>)
    requires CarefulRun(pages, ops)
    ensures Run(Init(pages, AsWritten), ops, AsWritten) == Run(Init(pages, Documented), ops, Documented)
    ensures Safe(Run(Init(pages, AsWritten), ops, AsWritten))
    ensures var h := Run(Init(pages, AsWritten), ops, AsWritten);
            forall b, c :: b in h.live && c in h.live && b != c ==> b.End() <= c.addr || c.End() <= b.addr
    decreases |ops|
  {
    hide Init, Step, Safe, Careful;
    DocumentedRunsAreSafe(pages, ops);
    if ops == [] {
      InitSame(pages);
    } else {
      var before, op := ops[..|ops| - 1], ops[|ops| - 1];
      assert CarefulRun(pages, before) by {
        forall n | 0 <= n < |before| ensures Careful(Run(Init(pages, AsWritten), before[..n], AsWritten), before[n]) {
          assert before[..n] == ops[..n] && before[n] == ops[n];
        }
      }
      CarefulRunsAreSafe(pages, before);
      assert Careful(Run(Init(pages, AsWritten), before, AsWritten), op);
      StepSafeIff(Run(Init(pages, AsWritten), before, AsWritten), op);
    }
  }

  // As written, the heap is honest after every call of a run if and only if every call is careful.
  lemma {:induction false} HonestIffCareful(pages: nat, ops: seq<Op>)
    ensures (forall n {:trigger HonestAt(pages, ops, n)} :: 0 <= n <= |ops| ==> HonestAt(pages, ops, n)) <==>
              CarefulRun(pages, ops)
    decreases |ops|
  {
    hide Init, Step, Safe, Careful, Used;
    assert ops[..|ops|] == ops;
    if ops == [] {
      InitSame(pages);
      SafeIsHonest(Init(pages, AsWritten));
    } else {
      var m := |ops| - 1;
      var before, op := ops[..m], ops[m];
      HonestIffCareful(pages, before);
      forall n | 0 <= n <= m ensures HonestAt(pages, ops, n) <==> HonestAt(pages, before, n) {
        assert before[..n] == ops[..n];
      }
      forall n | 0 <= n < m ensures before[n] == ops[n] && before[..n] == ops[..n] {
      }
      if CarefulRun(pages, before) {
        LastCall(pages, ops);
      } else {
        var n :| 0 <= n <= m && !HonestAt(pages, before, n);
        assert !HonestAt(pages, ops, n);
        var k :| 0 <= k < m && !Careful(Run(Init(pages, AsWritten), before[..k], AsWritten), before[k]);
        assert ops[k] == before[k];
      }
    }
  }

  lemma {:induction false} LastCall(pages: nat, ops: seq<Op>)
    requires ops != [] && CarefulRun(pages, ops[..|ops| - 1])
    ensures var before := ops[..|ops| - 1];
            HonestAt(pages, ops, |ops|) <==> Careful(Run(Init(pages, AsWritten), before, AsWritten), ops[|ops| - 1])
  {
    hide Init, Step, Safe, Careful, Used;
    var before := ops[..|ops| - 1];
    assert ops[..|ops|] == ops;
    CarefulRunsAreSafe(pages, before);
    StepSafeIff(Run(Init(pages, AsWritten), before, AsWritten), ops[|ops| - 1]);
  }

  lemma SafeIsHonest(h: Heap)
    requires Safe(h)
    ensures h.live == Used(h.bs)
  {
  }

  // ---- A run as written that drains memory ----

  // One page, handed out whole: the next request, however small, takes every page there is, gets
  // none, and leaves its holder's block grown over all of them.
  lemma DrainsFromBoot(supply: nat)
    requires supply > 0
    ensures var b := Block(HEAP_BASE, 4064, false);
            Run(Init(1, AsWritten), [Malloc(4064, 0), Malloc(8, supply)], AsWritten)
            == Heap([b.(size := 4064 + supply * PAGE_SIZE)], HEAP_BASE + PAGE_SIZE + supply * PAGE_SIZE, {b})
  {
    hide Kmalloc;
    var b := Block(HEAP_BASE, 4064, false);
    WholePage();
    var h := Step(Init(1, AsWritten), Malloc(4064, 0), AsWritten);
    assert h == Heap([b], HEAP_BASE + PAGE_SIZE, {b});
    assert Tiles(h.bs, HEAP_BASE, h.top) && FirstFit(h.bs, 8, 0) == 1;
    UsedTailDrains(h.bs, HEAP_BASE, h.top, 8, supply);
    KmallocTiles(h.bs, HEAP_BASE, h.top, 8, supply, AsWritten);
    assert [b][..0] == [];
    RunStep(Init(1, AsWritten), [], Malloc(4064, 0));
    RunStep(Init(1, AsWritten), [Malloc(4064, 0)], Malloc(8, supply));
    assert [] + [Malloc(4064, 0)] == [Malloc(4064, 0)];
    assert [Malloc(4064, 0)] + [Malloc(8, supply)] == [Malloc(4064, 0), Malloc(8, supply)];
  }

  lemma WholePage()
    ensures Init(1, AsWritten) == Heap([Block(HEAP_BASE, 4064, true)], HEAP_BASE + PAGE_SIZE, {})
    ensures Kmalloc([Block(HEAP_BASE, 4064, true)], HEAP_BASE + PAGE_SIZE, 4064, 0, AsWritten)
            == Outcome([Block(HEAP_BASE, 4064, false)], HEAP_BASE + PAGE_SIZE, Some(0), 0)
  {
    EmptyHeapSafe();
    ExpandForm([], HEAP_BASE, HEAP_BASE, 1, AsWritten);
  }
}
