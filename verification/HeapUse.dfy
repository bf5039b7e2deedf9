/** Who holds the heap's blocks: which blocks stay in use through kmalloc and kfree as written
    (kernel/src/mm/pmm.c:166-255), and which kfree calls take a block from its holder.
  */
module HeapUse {
  import opened Common
  import opened Pte
  import opened HeapSpec
  import HeapRuns

  // ---- Blocks in use ----

  // The block is in use, its data area starts at p and has at least `size` bytes.
  predicate IsInUse(b: Block, p: nat, size: nat) {
    b.addr + HEADER_SIZE == p && !b.free && b.size >= size
  }

  predicate InUse(bs: seq<Block>, p: nat, size: nat) {
    exists i :: 0 <= i < |bs| && IsInUse(bs[i], p, size)
  }

  // Whatever was in use still is, with its address and at least its size.
  ghost predicate UsedKept(bs0: seq<Block>, bs1: seq<Block>) {
    forall p, size: nat :: InUse(bs0, p, size) ==> InUse(bs1, p, size)
  }

  // p is the pointer of a block handed out in between.
  predicate NewlyUsed(bs0: seq<Block>, bs1: seq<Block>, p: nat, size: nat) {
    InUse(bs1, p, size) && !InUse(bs0, p, 0)
  }

  lemma UsedRefl(bs: seq<Block>)
    ensures UsedKept(bs, bs)
  {
  }

  lemma UsedTrans(bs0: seq<Block>, bs1: seq<Block>, bs2: seq<Block>)
    requires UsedKept(bs0, bs1) && UsedKept(bs1, bs2)
    ensures UsedKept(bs0, bs2)
  {
  }

  // Different blocks in use have disjoint data areas, headers included.
  lemma InUseDisjoint(bs: seq<Block>, lo: nat, hi: nat, p: nat, size: nat, q: nat, size': nat)
    requires Tiles(bs, lo, hi) && InUse(bs, p, size) && InUse(bs, q, size') && p != q
    ensures p + size + HEADER_SIZE <= q || q + size' + HEADER_SIZE <= p
  {
    var i :| 0 <= i < |bs| && IsInUse(bs[i], p, size);
    var j :| 0 <= j < |bs| && IsInUse(bs[j], q, size');
    BlocksDisjoint(bs, lo, hi, bs[i], bs[j]);
  }

  // ---- kmalloc takes nothing from anybody ----

  lemma {:induction false} FreeIsNotInUse(bs: seq<Block>, lo: nat, hi: nat, i: nat)
    requires Tiles(bs, lo, hi) && i < |bs| && bs[i].free
    ensures !InUse(bs, bs[i].addr + HEADER_SIZE, 0)
  {
    forall k | 0 <= k < |bs| ensures !IsInUse(bs[k], bs[i].addr + HEADER_SIZE, 0) {
      if k < i {
        AddressesAscend(bs, lo, hi, k, i);
      } else if k > i {
        AddressesAscend(bs, lo, hi, i, k);
      }
    }
  }

  lemma {:induction false} AllocKeeps(bs: seq<Block>, lo: nat, hi: nat, i: nat, size: nat)
    requires Tiles(bs, lo, hi) && i < |bs| && bs[i].free && bs[i].size >= size
    ensures UsedKept(bs, AllocAt(bs, i, size))
    ensures NewlyUsed(bs, AllocAt(bs, i, size), bs[i].addr + HEADER_SIZE, size)
    ensures i < |AllocAt(bs, i, size)| && AllocAt(bs, i, size)[i].addr == bs[i].addr
  {
    var r := AllocAt(bs, i, size);
    FreeIsNotInUse(bs, lo, hi, i);
    assert IsInUse(r[i], bs[i].addr + HEADER_SIZE, size);
    forall p, s: nat | InUse(bs, p, s) ensures InUse(r, p, s) {
      var k :| 0 <= k < |bs| && IsInUse(bs[k], p, s);
      assert r[if k < i then k else k + |r| - |bs|] == bs[k];
    }
  }

  // The pointer that kmalloc returns when a block fits.
  function FittingPtr(bs: seq<Block>, size: nat): nat
    requires Fits(bs, size)
  {
    bs[FirstFit(bs, size, 0)].addr + HEADER_SIZE
  }

  // The pointer of the first fit, if there is one, and those of n first fits one after the other.
  function FirstPtr(bs: seq<Block>, size: nat): nat {
    if Fits(bs, size) then FittingPtr(bs, size) else 0
  }

  function ManyPtrs(bs: seq<Block>, size: nat, n: nat): (ps: seq<nat>)
    ensures |ps| == n
  {
    if n == 0 then [] else ManyPtrs(bs, size, n - 1) + [FirstPtr(AllocMany(bs, size, n - 1), size)]
  }

  lemma FirstIs(bs: seq<Block>, size: nat)
    requires Fits(bs, size)
    ensures FirstPtr(bs, size) == FittingPtr(bs, size)
    ensures AllocFirst(bs, size) == AllocAt(bs, FirstFit(bs, size, 0), size)
  {
  }

  lemma NextPtr(bs: seq<Block>, size: nat, n: nat)
    ensures ManyPtrs(bs, size, 0) == []
    ensures Fits(AllocMany(bs, size, n), size) ==>
              ManyPtrs(bs, size, n + 1) == ManyPtrs(bs, size, n) + [FittingPtr(AllocMany(bs, size, n), size)]
  {
  }

  lemma {:induction false} ExpandKeeps(bs: seq<Block>, lo: nat, top: nat, n: nat)
    requires Tiles(bs, lo, top)
    ensures UsedKept(bs, Expand(bs, top, n, AsWritten)) && Tiles(Expand(bs, top, n, AsWritten), lo, top + n * PAGE_SIZE)
  {
    hide Expand, Tiles;
    ExpandNone(bs, top, AsWritten);
    if n > 0 {
      ExpandForm(bs, lo, top, n, AsWritten);
      var r := Expand(bs, top, n, AsWritten);
      forall p, s: nat | InUse(bs, p, s) ensures InUse(r, p, s) {
        var k :| 0 <= k < |bs| && IsInUse(bs[k], p, s);
        assert IsInUse(r[k], p, s);
      }
    }
  }

  // Whatever kmalloc does, blocks in use stay in use, and the block it hands out is one that
  // nobody had.
  lemma {:induction false} KmallocKeeps(bs: seq<Block>, lo: nat, top: nat, size: nat, supply: nat)
    requires Tiles(bs, lo, top) && size % 8 == 0
    ensures var r := HeapRuns.Kmalloc(bs, top, size, supply, AsWritten);
            && UsedKept(bs, r.bs)
            && (r.at.Some? ==> r.at.value < |r.bs| && NewlyUsed(bs, r.bs, r.bs[r.at.value].addr + HEADER_SIZE, size))
    decreases supply
  {
    hide Expand, Tiles, AllocAt, HeapRuns.PagesNeeded, InUse;
    var i, n := FirstFit(bs, size, 0), HeapRuns.PagesNeeded(size);
    if i < |bs| {
      AllocKeeps(bs, lo, top, i, size);
    } else if supply < n {
      ExpandKeeps(bs, lo, top, supply);
    } else {
      ExpandKeeps(bs, lo, top, n);
      KmallocKeeps(Expand(bs, top, n, AsWritten), lo, top + n * PAGE_SIZE, size, supply - n);
    }
  }

  // ---- What one kfree takes ----

  // The kfree of block i finds the block of p, in use, right behind it.
  predicate Takes(bs: seq<Block>, i: nat, p: nat) {
    i + 1 < |bs| && IsInUse(bs[i + 1], p, 0)
  }

  // The same for the block of pointer q, if it is listed.
  predicate FreeTakes(bs: seq<Block>, q: nat, p: nat) {
    q >= HEADER_SIZE && Takes(bs, HeapRuns.IndexOf(bs, q - HEADER_SIZE), p)
  }

  lemma {:induction false} FreeSizes(bs: seq<Block>, i: nat)
    requires i < |bs|
    ensures var lo, r := FreeLo(bs, i, AsWritten), FreeAt(bs, i, AsWritten);
            lo < |r| && r[lo].size >= bs[lo].size
  {
  }

  // Through the kfree of block i, exactly block i and the block in use behind it are lost.
  lemma {:induction false} KfreeKeepsIff(bs: seq<Block>, lo: nat, hi: nat, i: nat, p: nat, size: nat)
    requires Tiles(bs, lo, hi) && i < |bs| && InUse(bs, p, size)
    ensures InUse(FreeAt(bs, i, AsWritten), p, size) <==> bs[i].addr + HEADER_SIZE != p && !Takes(bs, i, p)
    ensures InUse(FreeAt(bs, i, AsWritten), p, 0) <==> bs[i].addr + HEADER_SIZE != p && !Takes(bs, i, p)
  {
    hide FreeAt, Tiles;
    var from, to, r := FreeLo(bs, i, AsWritten), FreeHi(bs, i, AsWritten), FreeAt(bs, i, AsWritten);
    FreeShape(bs, i, AsWritten);
    FreeSizes(bs, i);
    var k :| 0 <= k < |bs| && IsInUse(bs[k], p, size);
    Neighbours(bs, lo, hi, i);
    if k == i || k == i + 1 {
      SwallowedIsGone(bs, lo, hi, i, k);
    } else {
      AddressUnique(bs, lo, hi, k, i);
      if i + 1 < |bs| {
        AddressUnique(bs, lo, hi, k, i + 1);
      }
      var j := if k < to then k else k - to + from + 1;
      assert j == from || r[j] == bs[k];
      assert IsInUse(r[j], p, size) && IsInUse(r[j], p, 0);
    }
  }

  // In a tiled heap every neighbour is adjacent.
  lemma {:induction false} Neighbours(bs: seq<Block>, lo: nat, hi: nat, i: nat)
    requires Tiles(bs, lo, hi) && i < |bs|
    ensures FreeLo(bs, i, AsWritten) == (if i > 0 then i - 1 else i)
    ensures FreeHi(bs, i, AsWritten) == (if i + 1 < |bs| then i + 2 else i + 1)
  {
    assert Adjacent(bs, i);
    if i > 0 {
      assert Adjacent(bs, i - 1);
    }
  }

  lemma {:induction false} AddressUnique(bs: seq<Block>, lo: nat, hi: nat, j: nat, k: nat)
    requires Tiles(bs, lo, hi) && j < |bs| && k < |bs| && j != k
    ensures bs[j].addr != bs[k].addr
  {
    if j < k {
      AddressesAscend(bs, lo, hi, j, k);
    } else {
      AddressesAscend(bs, lo, hi, k, j);
    }
  }

  lemma {:induction false} SwallowedIsGone(bs: seq<Block>, lo: nat, hi: nat, i: nat, k: nat)
    requires Tiles(bs, lo, hi) && i < |bs| && k < |bs| && (k == i || k == i + 1)
    ensures !InUse(FreeAt(bs, i, AsWritten), bs[k].addr + HEADER_SIZE, 0)
  {
    hide FreeAt;
    var from, to, r, p := FreeLo(bs, i, AsWritten), FreeHi(bs, i, AsWritten), FreeAt(bs, i, AsWritten),
        bs[k].addr + HEADER_SIZE;
    FreeShape(bs, i, AsWritten);
    Neighbours(bs, lo, hi, i);
    forall j | 0 <= j < |r| ensures !IsInUse(r[j], p, 0) {
      if j < from {
        assert r[j] == bs[j];
        AddressUnique(bs, lo, hi, j, k);
      } else if j > from {
        assert r[j] == bs[j - from - 1 + to];
        AddressUnique(bs, lo, hi, j - from - 1 + to, k);
      } else if from < i {
        AddressUnique(bs, lo, hi, from, k);
      } else if k == i + 1 {
        AddressUnique(bs, lo, hi, i, k);
      }
    }
  }

  // kfree brings nothing into use.
  lemma {:induction false} KfreeAddsNone(bs: seq<Block>, i: nat, p: nat)
    requires i < |bs| && InUse(FreeAt(bs, i, AsWritten), p, 0)
    ensures InUse(bs, p, 0)
  {
    hide FreeAt;
    var from, to, r := FreeLo(bs, i, AsWritten), FreeHi(bs, i, AsWritten), FreeAt(bs, i, AsWritten);
    FreeShape(bs, i, AsWritten);
    var j :| 0 <= j < |r| && IsInUse(r[j], p, 0);
    var k := if j <= from then j else j - from - 1 + to;
    assert j == from || r[j] == bs[k];
    assert IsInUse(bs[k], p, 0);
  }

  // kfree of any pointer q: of the blocks in use, it takes its own and the one right behind.
  lemma {:induction false} FreeKeepsIff(bs: seq<Block>, lo: nat, hi: nat, q: nat, p: nat, size: nat)
    requires Tiles(bs, lo, hi) && InUse(bs, p, size) && p != q
    ensures InUse(HeapRuns.FreeListed(bs, q), p, size) <==> !FreeTakes(bs, q, p)
    ensures InUse(HeapRuns.FreeListed(bs, q), p, 0) <==> !FreeTakes(bs, q, p)
  {
    hide FreeAt, Tiles, InUse;
    var i := if q >= HEADER_SIZE then HeapRuns.IndexOf(bs, q - HEADER_SIZE) else |bs|;
    if i < |bs| {
      KfreeKeepsIff(bs, lo, hi, i, p, size);
    } else {
      Lesser(bs, p, size);
    }
  }

  lemma Lesser(bs: seq<Block>, p: nat, size: nat)
    requires InUse(bs, p, size)
    ensures InUse(bs, p, 0)
  {
    var i :| 0 <= i < |bs| && IsInUse(bs[i], p, size);
    assert IsInUse(bs[i], p, 0);
  }

  // A larger block in use will do for fewer bytes.
  lemma FewerBytes(bs0: seq<Block>, bs1: seq<Block>, p: nat, size: nat, fewer: nat)
    requires NewlyUsed(bs0, bs1, p, size) && fewer <= size
    ensures NewlyUsed(bs0, bs1, p, fewer)
  {
    var i :| 0 <= i < |bs1| && IsInUse(bs1[i], p, size);
    assert IsInUse(bs1[i], p, fewer);
  }

  // No block is larger than the heap.
  lemma {:induction false} WithinHeap(bs: seq<Block>, lo: nat, hi: nat, p: nat, size: nat)
    requires Tiles(bs, lo, hi) && InUse(bs, p, size)
    ensures size < hi - lo
  {
    var i :| 0 <= i < |bs| && IsInUse(bs[i], p, size);
    StartBound(bs, lo, hi, i);
    EndBound(bs, lo, hi, i);
  }

  lemma {:induction false} FreeAddsNone(bs: seq<Block>, q: nat, p: nat)
    requires InUse(HeapRuns.FreeListed(bs, q), p, 0)
    ensures InUse(bs, p, 0)
  {
    hide FreeAt, InUse;
    var i := if q >= HEADER_SIZE then HeapRuns.IndexOf(bs, q - HEADER_SIZE) else |bs|;
    if i < |bs| {
      KfreeAddsNone(bs, i, p);
    }
  }

  lemma {:induction false} FreeListedTiles(bs: seq<Block>, lo: nat, hi: nat, q: nat)
    requires Tiles(bs, lo, hi)
    ensures Tiles(HeapRuns.FreeListed(bs, q), lo, hi)
  {
    hide Tiles, FreeAt;
    var i := if q >= HEADER_SIZE then HeapRuns.IndexOf(bs, q - HEADER_SIZE) else |bs|;
    if i < |bs| {
      FreeTiles(bs, lo, hi, i, AsWritten);
    }
  }

  // kfree of a listed block finds its own header.
  lemma {:induction false} FreeListedAt(bs: seq<Block>, lo: nat, hi: nat, i: nat)
    requires Tiles(bs, lo, hi) && i < |bs|
    ensures HeapRuns.FreeListed(bs, bs[i].addr + HEADER_SIZE) == FreeAt(bs, i, AsWritten)
  {
    hide Tiles, FreeAt;
    var k := HeapRuns.IndexOf(bs, bs[i].addr);
    if k != i {
      AddressUnique(bs, lo, hi, k, i);
    }
  }

  // ---- Sequences of kfree calls ----

  ghost predicate Tiled(bs: seq<Block>) {
    exists lo: nat, hi: nat :: Tiles(bs, lo, hi)
  }

  // What every operation does to the heap: kmalloc calls that lead to `mid` and touch nobody's
  // block, then the kfree calls ps, of blocks of its own (`mine`, or obtained by the operation).
  ghost predicate OwnFrees(bs0: seq<Block>, mid: seq<Block>, ps: seq<nat>, bs1: seq<Block>, mine: set<nat>) {
    && UsedKept(bs0, mid) && Tiled(mid) && bs1 == HeapRuns.FreeEach(mid, ps)
    && forall p :: p in ps ==> p in mine || !InUse(bs0, p, 0)
  }

  // Different blocks, all handed out in between.
  ghost predicate AllNew(bs0: seq<Block>, bs1: seq<Block>, ps: seq<nat>, size: nat) {
    && (forall i, j :: 0 <= i < j < |ps| ==> ps[i] != ps[j])
    && (forall p :: p in ps ==> NewlyUsed(bs0, bs1, p, size))
  }

  // One more.
  lemma {:induction false} NewBlock(bs0: seq<Block>, bs1: seq<Block>, bs2: seq<Block>, ps: seq<nat>, p: nat, size: nat)
    requires UsedKept(bs0, bs1) && AllNew(bs0, bs1, ps, size) && UsedKept(bs1, bs2) && NewlyUsed(bs1, bs2, p, size)
    ensures UsedKept(bs0, bs2) && AllNew(bs0, bs2, ps + [p], size)
  {
    hide InUse;
    forall q | q in ps ensures q != p && InUse(bs2, q, size) {
      Lesser(bs1, q, size);
    }
  }

  // The kfree calls go on.
  lemma {:induction false} MoreFrees(bs0: seq<Block>, mid: seq<Block>, ps: seq<nat>, bs1: seq<Block>, mine: set<nat>,
                                     qs: seq<nat>, bs2: seq<Block>)
    requires OwnFrees(bs0, mid, ps, bs1, mine) && bs2 == HeapRuns.FreeEach(bs1, qs) && forall q :: q in qs ==> q in ps
    ensures OwnFrees(bs0, mid, ps + qs, bs2, mine)
  {
    hide HeapRuns.FreeEach, InUse, UsedKept, Tiled;
    FreeEachAppend(mid, ps, qs);
  }

  // An operation after one that only made kmalloc calls; what was new then is its own.
  lemma {:induction false} EarlierGrowth(bs0: seq<Block>, bs1: seq<Block>, mid: seq<Block>, ps: seq<nat>,
                                         bs2: seq<Block>, mine: set<nat>)
    requires UsedKept(bs0, bs1) && OwnFrees(bs1, mid, ps, bs2, mine) && forall p :: p in mine ==> !InUse(bs0, p, 0)
    ensures OwnFrees(bs0, mid, ps, bs2, {})
  {
    hide HeapRuns.FreeEach, InUse, Tiled;
    UsedTrans(bs0, bs1, mid);
  }

  lemma OwnFreesParts(bs0: seq<Block>, mid: seq<Block>, ps: seq<nat>, bs1: seq<Block>)
    requires OwnFrees(bs0, mid, ps, bs1, {})
    ensures UsedKept(bs0, mid) && bs1 == HeapRuns.FreeEach(mid, ps) && forall p :: p in ps ==> !InUse(bs0, p, 0)
  {
  }

  lemma OwnNone(bs1: seq<Block>, mid: seq<Block>, bs2: seq<Block>)
    requires OwnFrees(bs1, mid, [], bs2, {})
    ensures UsedKept(bs1, mid) && mid == bs2
  {
  }

  lemma NoFrees(bs0: seq<Block>, bs1: seq<Block>)
    requires UsedKept(bs0, bs1) && Tiled(bs1)
    ensures OwnFrees(bs0, bs1, [], bs1, {})
  {
  }

  lemma {:induction false} OneFree(bs0: seq<Block>, mid: seq<Block>, p: nat, bs1: seq<Block>)
    requires UsedKept(bs0, mid) && Tiled(mid) && !InUse(bs0, p, 0) && bs1 == HeapRuns.FreeListed(mid, p)
    ensures OwnFrees(bs0, mid, [p], bs1, {})
  {
    hide HeapRuns.FreeListed;
    FreeEachOne(mid, p);
  }

  lemma {:induction false} FreeEachTiles(bs: seq<Block>, lo: nat, hi: nat, ps: seq<nat>)
    requires Tiles(bs, lo, hi)
    ensures Tiles(HeapRuns.FreeEach(bs, ps), lo, hi)
    decreases |ps|
  {
    hide Tiles, HeapRuns.FreeListed;
    if ps != [] {
      FreeEachTiles(bs, lo, hi, ps[..|ps| - 1]);
      FreeListedTiles(HeapRuns.FreeEach(bs, ps[..|ps| - 1]), lo, hi, ps[|ps| - 1]);
    }
  }

  lemma {:induction false} FreeEachAppend(bs: seq<Block>, ps: seq<nat>, qs: seq<nat>)
    ensures HeapRuns.FreeEach(bs, ps + qs) == HeapRuns.FreeEach(HeapRuns.FreeEach(bs, ps), qs)
    decreases |qs|
  {
    hide HeapRuns.FreeListed;
    if qs == [] {
      assert ps + qs == ps;
    } else {
      var m := |qs| - 1;
      FreeEachAppend(bs, ps, qs[..m]);
      assert (ps + qs)[..|ps + qs| - 1] == ps + qs[..m];
    }
  }

  lemma FreeEachOne(bs: seq<Block>, p: nat)
    ensures HeapRuns.FreeEach(bs, [p]) == HeapRuns.FreeListed(bs, p) && HeapRuns.FreeEach(bs, []) == bs
  {
    assert [p][..0] == [];
    assert HeapRuns.FreeEach(bs, [p][..0]) == bs;
  }

  // The n-th kfree does not find a block of `keep` right behind the one it releases. This is the
  // check that kfree does not make.
  ghost predicate TakesNone(bs: seq<Block>, q: nat, keep: set<nat>) {
    forall p :: p in keep ==> !FreeTakes(bs, q, p)
  }

  ghost predicate Careful(bs: seq<Block>, ps: seq<nat>, keep: set<nat>) {
    forall n {:trigger ps[n]} :: 0 <= n < |ps| ==> TakesNone(HeapRuns.FreeEach(bs, ps[..n]), ps[n], keep)
  }

  // Every holder's block is in use, with the size it asked for.
  ghost predicate AllInUse(bs: seq<Block>, keep: map<nat, nat>) {
    forall p :: p in keep ==> InUse(bs, p, keep[p])
  }

  lemma CarefulSplit(bs: seq<Block>, ps: seq<nat>, keep: set<nat>)
    requires ps != []
    ensures var m := |ps| - 1;
            Careful(bs, ps, keep) <==>
                Careful(bs, ps[..m], keep)
                && TakesNone(HeapRuns.FreeEach(bs, ps[..m]), ps[m], keep)
  {
    hide HeapRuns.FreeEach, TakesNone;
    var m := |ps| - 1;
    forall n | 0 <= n < m ensures ps[..m][..n] == ps[..n] && ps[..m][n] == ps[n] {
    }
    if Careful(bs, ps[..m], keep) && TakesNone(HeapRuns.FreeEach(bs, ps[..m]), ps[m], keep) {
      forall n | 0 <= n < |ps| ensures TakesNone(HeapRuns.FreeEach(bs, ps[..n]), ps[n], keep) {
        if n < m {
          assert TakesNone(HeapRuns.FreeEach(bs, ps[..m][..n]), ps[..m][n], keep);
        }
      }
    }
    if Careful(bs, ps, keep) {
      forall n | 0 <= n < m ensures TakesNone(HeapRuns.FreeEach(bs, ps[..m][..n]), ps[..m][n], keep) {
        assert ps[..m][n] == ps[n];
      }
    }
  }

  lemma CarefulOne(bs: seq<Block>, p: nat, keep: set<nat>)
    ensures Careful(bs, [p], keep) <==> TakesNone(bs, p, keep)
  {
    hide TakesNone, HeapRuns.FreeListed;
    FreeEachOne(bs, p);
    CarefulSplit(bs, [p], keep);
    CarefulNone(bs, keep);
    assert [p][..0] == [];
  }

  lemma CarefulNone(bs: seq<Block>, keep: set<nat>)
    ensures Careful(bs, [], keep)
  {
  }

  // A block once taken does not come back.
  lemma {:induction false} StaysLost(bs: seq<Block>, q: nat, p: nat)
    requires !InUse(bs, p, 0)
    ensures !InUse(HeapRuns.FreeListed(bs, q), p, 0)
  {
    if InUse(HeapRuns.FreeListed(bs, q), p, 0) {
      FreeAddsNone(bs, q, p);
    }
  }

  // Any sequence of kfree calls leaves the other holders' blocks in use if and only if no call
  // finds one of them right behind the block it releases.
  lemma {:induction false} FreesKeepIff(bs: seq<Block>, lo: nat, hi: nat, ps: seq<nat>, keep: map<nat, nat>)
    requires Tiles(bs, lo, hi) && AllInUse(bs, keep) && forall q :: q in ps ==> q !in keep
    ensures AllInUse(HeapRuns.FreeEach(bs, ps), keep) <==> Careful(bs, ps, keep.Keys)
    ensures !Careful(bs, ps, keep.Keys) ==> exists p :: p in keep && !InUse(HeapRuns.FreeEach(bs, ps), p, 0)
    decreases |ps|
  {
    hide HeapRuns.FreeListed, Tiles, InUse, FreeTakes, Careful;
    if ps == [] {
      CarefulNone(bs, keep.Keys);
    } else {
      var m := |ps| - 1;
      var mid, q := HeapRuns.FreeEach(bs, ps[..m]), ps[m];
      FreesKeepIff(bs, lo, hi, ps[..m], keep);
      CarefulSplit(bs, ps, keep.Keys);
      FreeEachTiles(bs, lo, hi, ps[..m]);
      if AllInUse(mid, keep) {
        LastFree(mid, lo, hi, q, keep);
      } else {
        var p :| p in keep && !InUse(mid, p, 0);
        StaysLost(mid, q, p);
        NotInUse(HeapRuns.FreeListed(mid, q), p, keep[p]);
      }
    }
  }

  lemma NotInUse(bs: seq<Block>, p: nat, size: nat)
    requires !InUse(bs, p, 0)
    ensures !InUse(bs, p, size)
  {
    if InUse(bs, p, size) {
      Lesser(bs, p, size);
    }
  }

  lemma {:induction false} LastFree(mid: seq<Block>, lo: nat, hi: nat, q: nat, keep: map<nat, nat>)
    requires Tiles(mid, lo, hi) && AllInUse(mid, keep) && q !in keep
    ensures AllInUse(HeapRuns.FreeListed(mid, q), keep) <==> TakesNone(mid, q, keep.Keys)
    ensures !TakesNone(mid, q, keep.Keys) ==> exists p :: p in keep && !InUse(HeapRuns.FreeListed(mid, q), p, 0)
  {
    hide HeapRuns.FreeListed, Tiles, InUse, FreeTakes;
    forall p | p in keep
      ensures InUse(HeapRuns.FreeListed(mid, q), p, keep[p]) <==> !FreeTakes(mid, q, p)
      ensures InUse(HeapRuns.FreeListed(mid, q), p, 0) <==> !FreeTakes(mid, q, p)
    {
      FreeKeepsIff(mid, lo, hi, q, p, keep[p]);
    }
  }

  lemma {:induction false} CarefulAppend(bs: seq<Block>, ps: seq<nat>, qs: seq<nat>, keep: set<nat>)
    ensures Careful(bs, ps + qs, keep) <==> Careful(bs, ps, keep) && Careful(HeapRuns.FreeEach(bs, ps), qs, keep)
    decreases |qs|
  {
    hide HeapRuns.FreeEach, TakesNone, Careful;
    if qs == [] {
      assert ps + qs == ps;
      CarefulNone(HeapRuns.FreeEach(bs, ps), keep);
    } else {
      var m := |qs| - 1;
      var all := ps + qs;
      CarefulAppend(bs, ps, qs[..m], keep);
      CarefulSplit(bs, all, keep);
      CarefulSplit(HeapRuns.FreeEach(bs, ps), qs, keep);
      assert all[..|all| - 1] == ps + qs[..m] && all[|all| - 1] == qs[m];
      FreeEachAppend(bs, ps, qs[..m]);
    }
  }

  // The blocks that others hold survive an operation if and only if its kfree calls are careful.
  lemma {:induction false} OthersKeepIff(bs0: seq<Block>, mid: seq<Block>, ps: seq<nat>, bs1: seq<Block>,
                                         mine: set<nat>, keep: map<nat, nat>)
    requires OwnFrees(bs0, mid, ps, bs1, mine)
    requires AllInUse(bs0, keep) && forall p :: p in keep ==> p !in mine
    ensures AllInUse(bs1, keep) <==> Careful(mid, ps, keep.Keys)
    ensures ps == [] ==> AllInUse(bs1, keep)
  {
    hide InUse, Tiles, Careful, HeapRuns.FreeEach;
    forall p | p in keep ensures InUse(mid, p, keep[p]) {
    }
    forall q | q in ps ensures q !in keep {
      if q in keep {
        Lesser(bs0, q, keep[q]);
      }
    }
    var lo: nat, hi: nat :| Tiles(mid, lo, hi);
    FreesKeepIff(mid, lo, hi, ps, keep);
    if ps == [] {
      CarefulNone(mid, keep.Keys);
    }
  }

  // The block that kfree releases is no longer in use.
  lemma {:induction false} OwnGone(bs: seq<Block>, lo: nat, hi: nat, q: nat)
    requires Tiles(bs, lo, hi) && InUse(bs, q, 0)
    ensures !InUse(HeapRuns.FreeListed(bs, q), q, 0)
  {
    hide Tiles, FreeAt;
    var k :| 0 <= k < |bs| && IsInUse(bs[k], q, 0);
    var i := HeapRuns.IndexOf(bs, q - HEADER_SIZE);
    if i < k {
      AddressUnique(bs, lo, hi, i, k);
    }
    SwallowedIsGone(bs, lo, hi, k, k);
  }

  // ---- The pointers of one owner, released in any order ----

  // Some earlier call has taken block p.
  ghost predicate TakenBefore(bs: seq<Block>, ps: seq<nat>, n: nat, p: nat) {
    exists m {:trigger ps[m]} :: 0 <= m < n && m < |ps| && FreeTakes(HeapRuns.FreeEach(bs, ps[..m]), ps[m], p)
  }

  // When an owner releases all blocks it holds, each call meets a block that is still in use or one
  // that an earlier call of the same sequence has taken; nothing was handed out in between.
  lemma {:induction false} EachFreeIsMeant(bs: seq<Block>, lo: nat, hi: nat, ps: seq<nat>, n: nat, k: nat)
    requires Tiles(bs, lo, hi) && (forall q :: q in ps ==> InUse(bs, q, 0))
    requires (forall i, j :: 0 <= i < j < |ps| ==> ps[i] != ps[j]) && n <= k < |ps|
    ensures InUse(HeapRuns.FreeEach(bs, ps[..n]), ps[k], 0) || TakenBefore(bs, ps, n, ps[k])
    decreases n
  {
    hide HeapRuns.FreeListed, Tiles, InUse, FreeTakes;
    if n > 0 {
      var m := n - 1;
      EachFreeIsMeant(bs, lo, hi, ps, m, k);
      assert ps[..n][..m] == ps[..m] && ps[..n][m] == ps[m];
      var mid := HeapRuns.FreeEach(bs, ps[..m]);
      FreeEachTiles(bs, lo, hi, ps[..m]);
      if TakenBefore(bs, ps, m, ps[k]) {
        var l :| 0 <= l < m && l < |ps| && FreeTakes(HeapRuns.FreeEach(bs, ps[..l]), ps[l], ps[k]);
        assert 0 <= l < n;
      } else {
        FreeKeepsIff(mid, lo, hi, ps[m], ps[k], 0);
      }
    }
  }
}
