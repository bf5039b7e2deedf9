/** Runs of the memory system: when every holder keeps his block and no frame is lost, decided by
    the operations, the heap and the frames at the start.
  */
module SystemRuns {
  import opened Common
  import opened Pte
  import opened Machine
  import opened MapPages
  import opened HeapSpec
  import HeapRuns
  import opened HeapUse
  import opened Holders
  import opened Kstack
  import opened Vmm
  import opened Fork
  import opened SystemMem
  import opened SystemSpec

  ghost predicate OkAt(states: seq<SysState>, n: nat) { n < |states| ==> StateOk(states[n]) }

  ghost predicate StepAt(ops: seq<Op>, states: seq<SysState>, steps: seq<HeapStep>, n: nat) {
    n < |steps| && n < |ops| && n + 1 < |states| ==> OpStep(ops[n], states[n], steps[n], states[n + 1])
  }

  // The states of a run, and its operations up to the last one that returned: every state is in order, and
  // each follows from the one before by the operation there.
  ghost predicate Chain(ops: seq<Op>, states: seq<SysState>, steps: seq<HeapStep>) {
    && |states| == |steps| + 1 && |steps| <= |ops|
    && (forall n: nat {:trigger OkAt(states, n)} :: OkAt(states, n))
    && (forall n: nat {:trigger StepAt(ops, states, steps, n)} :: StepAt(ops, states, steps, n))
  }

  lemma {:induction false} ChainStart(ops: seq<Op>, s: SysState)
    requires StateOk(s)
    ensures Chain(ops, [s], [])
  {
    hide OpStep, StateOk;
  }

  lemma {:induction false} ChainNext(ops: seq<Op>, states: seq<SysState>, steps: seq<HeapStep>, st: HeapStep,
                                     s: SysState)
    requires Chain(ops, states, steps) && |steps| < |ops| && StateOk(s)
    requires OpStep(ops[|steps|], states[|steps|], st, s)
    ensures Chain(ops, states + [s], steps + [st])
  {
    hide StateOk, OpStep;
    var states', steps' := states + [s], steps + [st];
    forall n: nat ensures OkAt(states', n) {
      assert OkAt(states, n);
    }
    forall n: nat ensures StepAt(ops, states', steps', n) {
      assert StepAt(ops, states, steps, n);
    }
  }

  lemma ChainAt(ops: seq<Op>, states: seq<SysState>, steps: seq<HeapStep>, n: nat)
    requires Chain(ops, states, steps) && n < |steps|
    ensures StateOk(states[n]) && StateOk(states[n + 1]) && OpStep(ops[n], states[n], steps[n], states[n + 1])
  {
    hide StateOk, OpStep;
    assert OkAt(states, n) && OkAt(states, n + 1) && StepAt(ops, states, steps, n);
  }

  // Operation n did not find enough heap room or frames.
  ghost predicate RanOut(ops: seq<Op>, states: seq<SysState>, n: nat) {
    && n < |ops| && n < |states| && |states[n].views| == |states[n].ptrs|
    && !Enough(ops[n], LayoutOf(states[n]), states[n].free)
  }

  lemma OutOf(ops: seq<Op>, states: seq<SysState>, n: nat)
    requires n < |ops| && n < |states| && |states[n].views| == |states[n].ptrs|
    requires !Enough(ops[n], LayoutOf(states[n]), states[n].free)
    ensures RanOut(ops, states, n)
  {
  }

  // ---- Which runs are careful ----

  ghost predicate AllCareful(states: seq<SysState>, steps: seq<HeapStep>) {
    |states| == |steps| + 1 && forall n :: 0 <= n < |steps| ==> StepCareful(steps[n], states[n + 1])
  }

  ghost predicate AllHonest(states: seq<SysState>) { forall n :: 0 < n < |states| ==> Honest(states[n]) }

  // The operations before the n-th were all careful if and only if the n-th state is intact, and if
  // and only if every holder has had his block in use all the time.
  lemma {:induction false} IntactSoFar(ops: seq<Op>, states: seq<SysState>, steps: seq<HeapStep>, n: nat)
    requires Chain(ops, states, steps) && states[0].intact && n <= |steps|
    ensures states[n].intact <==> forall k :: 0 <= k < n ==> StepCareful(steps[k], states[k + 1])
    ensures states[n].intact <==> forall k :: 0 < k <= n ==> Honest(states[k])
  {
    hide OwnStep, AsPlanned, Enough, Applies, StepCareful, Honest, RegistryOk, StateOk, Losses, UsedKept, LayoutOf;
    if n > 0 {
      IntactSoFar(ops, states, steps, n - 1);
      ChainAt(ops, states, steps, n - 1);
      if states[n - 1].intact {
        assert StepCareful(steps[n - 1], states[n]) <==> Honest(states[n]);
      }
    }
  }

  // Every holder has his own block after every operation if and only if every operation is careful.
  lemma {:induction false} HonestIffCareful(ops: seq<Op>, states: seq<SysState>, steps: seq<HeapStep>)
    requires Chain(ops, states, steps) && states[0].intact
    ensures AllHonest(states) <==> AllCareful(states, steps)
    ensures states[|steps|].intact <==> AllCareful(states, steps)
  {
    hide Chain, StepCareful, Honest;
    ChainLength(ops, states, steps);
    IntactSoFar(ops, states, steps, |steps|);
  }

  lemma ChainLength(ops: seq<Op>, states: seq<SysState>, steps: seq<HeapStep>)
    requires Chain(ops, states, steps)
    ensures |states| == |steps| + 1 && |steps| <= |ops|
  {
  }

  // ---- Plans ----

  // The layout after n operations, and the frames they may take, when nothing runs out.
  function PlanAfter(ops: seq<Op>, lay: Layout, n: nat): Layout
    requires n <= |ops|
  {
    if n == 0 then lay else Planned(ops[n - 1], PlanAfter(ops, lay, n - 1))
  }

  function FramesBefore(ops: seq<Op>, lay: Layout, n: nat): nat
    requires n <= |ops|
  {
    if n == 0 then 0 else FramesBefore(ops, lay, n - 1) + Frames(ops[n - 1], PlanAfter(ops, lay, n - 1))
  }

  lemma {:induction false} FramesGrow(ops: seq<Op>, lay: Layout, n: nat, m: nat)
    requires n <= m <= |ops|
    ensures FramesBefore(ops, lay, n) <= FramesBefore(ops, lay, m)
    decreases m
  {
    hide Frames, Planned;
    if n < m {
      FramesGrow(ops, lay, n, m - 1);
    }
  }

  ghost predicate PlanFits(ops: seq<Op>, lay: Layout) {
    forall n :: 0 <= n < |ops| ==> HeapRoom(ops[n], PlanAfter(ops, lay, n))
  }

  // Every kfree of the run spares what others hold: a condition on the operations and the heap before.
  ghost predicate PlanCareful(ops: seq<Op>, lay: Layout) { CarefulUpTo(ops, lay, |ops|) }

  ghost predicate CarefulUpTo(ops: seq<Op>, lay: Layout, n: nat)
    requires n <= |ops|
  {
    forall k :: 0 <= k < n ==> CarefulCall(ops[k], PlanAfter(ops, lay, k))
  }

  lemma CarefulNext(ops: seq<Op>, lay: Layout, n: nat)
    requires n < |ops|
    ensures CarefulUpTo(ops, lay, n + 1) <==> CarefulUpTo(ops, lay, n) && CarefulCall(ops[n], PlanAfter(ops, lay, n))
  {
    hide CarefulCall, PlanAfter;
  }

  lemma CarefulStart(ops: seq<Op>, lay: Layout)
    ensures CarefulUpTo(ops, lay, 0)
  {
  }

  // After n operations the layout is the planned one, and no frame has been lost.
  ghost predicate OnPlan(ops: seq<Op>, lay: Layout, s0: SysState, s: SysState, n: nat)
    requires n <= |ops|
  {
    && |s.views| == |s.ptrs| && LayoutOf(s) == PlanAfter(ops, lay, n) && NoLoss(s0, s)
    && s.free + FramesBefore(ops, lay, n) >= s0.free
  }

  // Heap room and frames for a whole run that starts in s.
  ghost predicate PlanEnough(ops: seq<Op>, lay: Layout, s: SysState) {
    && |s.views| == |s.ptrs| && LayoutOf(s) == lay
    && PlanFits(ops, lay) && s.free >= FramesBefore(ops, lay, |ops|)
  }

  lemma {:induction false} RunIsPlanned(ops: seq<Op>, lay: Layout, states: seq<SysState>, steps: seq<HeapStep>, n: nat)
    requires Chain(ops, states, steps) && n <= |steps| && PlanEnough(ops, lay, states[0])
    ensures OnPlan(ops, lay, states[0], states[n], n)
    ensures n < |ops| ==> Enough(ops[n], LayoutOf(states[n]), states[n].free)
  {
    hide StateOk, AnyStep, OwnStep, Planned, Frames, HeapRoom, LayoutOf, Applies, Chain;
    ChainLength(ops, states, steps);
    if n > 0 {
      RunIsPlanned(ops, lay, states, steps, n - 1);
      ChainAt(ops, states, steps, n - 1);
    }
    if n < |ops| {
      FramesGrow(ops, lay, n + 1, |ops|);
      assert HeapRoom(ops[n], PlanAfter(ops, lay, n));
    }
  }

  // ---- The registry holds exactly the pointers of the layout ----

  lemma {:induction false} KeysArePointers(s: SysState)
    requires |s.views| == |s.ptrs| && RegistryOk(s.held, s.ptrs, s.others)
    ensures s.held.Keys == AllPointers(LayoutOf(s))
  {
    hide Registered, ListedFor;
    var lay := LayoutOf(s);
    forall p | p in s.held ensures p in AllPointers(lay) {
      PointerOf(s, p);
    }
    forall i, p | 0 <= i < |lay.spaces| && p in lay.spaces[i].ptrs ensures p in s.held {
      assert Registered(s.held, s.ptrs[i]);
      PtrsIn(s.held, s.ptrs[i]);
    }
  }

  lemma {:induction false} PointerOf(s: SysState, p: nat)
    requires |s.views| == |s.ptrs| && p in s.held && ListedFor(s.ptrs, s.others, p, s.held[p])
    ensures p in AllPointers(LayoutOf(s))
  {
    if s.held[p].root != 0 {
      var i :| 0 <= i < |s.ptrs| && s.ptrs[i].root == s.held[p].root && p in s.ptrs[i].ptrs;
      assert p in LayoutOf(s).spaces[i].ptrs;
    }
  }

  // With enough room and frames, an operation is careful if and only if the check before the call
  // says so.
  lemma {:induction false} CarefulIffCall(op: Op, s: SysState, st: HeapStep, s': SysState)
    requires StateOk(s) && StateOk(s') && s.intact && OpStep(op, s, st, s') && Enough(op, LayoutOf(s), s.free)
    ensures s'.intact <==> CarefulCall(op, LayoutOf(s))
  {
    hide Enough, AllPointers, Planned, Careful, TakesNone, RegistryOk, Losses, UsedKept, Rest, Frames,
      HeapRuns.FreeEach;
    KeysArePointers(s');
    CarefulNone(st.mid, s'.held.Keys);
    if op.OpKfree? {
      CarefulOne(s.blocks, op.p, s'.held.Keys);
    }
  }

  lemma IntactNext(op: Op, s: SysState, st: HeapStep, s': SysState)
    requires OpStep(op, s, st, s')
    ensures s'.intact <==> s.intact && StepCareful(st, s')
  {
  }

  lemma {:induction false} PlannedSoFar(ops: seq<Op>, lay: Layout, states: seq<SysState>, steps: seq<HeapStep>, n: nat)
    requires Chain(ops, states, steps) && n <= |steps| && states[0].intact && PlanEnough(ops, lay, states[0])
    ensures states[n].intact <==> CarefulUpTo(ops, lay, n)
  {
    hide StateOk, OpStep, StepCareful, LayoutOf, CarefulCall, PlanFits, Enough, Chain, PlanEnough, CarefulUpTo,
      PlanAfter;
    ChainLength(ops, states, steps);
    CarefulStart(ops, lay);
    if n > 0 {
      PlannedSoFar(ops, lay, states, steps, n - 1);
      ChainAt(ops, states, steps, n - 1);
      RunIsPlanned(ops, lay, states, steps, n - 1);
      CarefulNext(ops, lay, n - 1);
      IntactNext(ops[n - 1], states[n - 1], steps[n - 1], states[n]);
      if states[n - 1].intact {
        CarefulIffCall(ops[n - 1], states[n - 1], steps[n - 1], states[n]);
      }
    }
  }

  // A run with enough room and frames, decided before it starts: every holder keeps his own block
  // all the way if and only if the planned kfree calls are careful, no frame is lost, and the last
  // state is the planned one.
  lemma {:induction false} PlannedRun(ops: seq<Op>, lay: Layout, states: seq<SysState>, steps: seq<HeapStep>)
    requires Chain(ops, states, steps) && |steps| == |ops| && states[0].intact && PlanEnough(ops, lay, states[0])
    ensures AllCareful(states, steps) <==> PlanCareful(ops, lay)
    ensures AllHonest(states) <==> PlanCareful(ops, lay)
    ensures OnPlan(ops, lay, states[0], states[|ops|], |ops|)
  {
    hide StateOk, OpStep, StepCareful, LayoutOf, CarefulCall, OnPlan, PlanEnough, AllHonest, AllCareful;
    RunIsPlanned(ops, lay, states, steps, |ops|);
    PlannedSoFar(ops, lay, states, steps, |ops|);
    HonestIffCareful(ops, states, steps);
  }

  // ---- Runs without kfree ----

  predicate NoReleases(ops: seq<Op>) { forall n :: 0 <= n < |ops| ==> !ops[n].OpFree? && !ops[n].OpKfree? }

  // Bytes of the heap that an operation uses up, headers included.
  function Room(op: Op, lay: Layout): nat {
    if !Applies(op, lay) then 0
    else
      match op
      case OpNew => SIZEOF_MM + HEADER_SIZE
      case OpMap(_, _, size, _) => if size == 0 then 0 else VMA_ROOM
      case OpFork(i) => SIZEOF_MM + HEADER_SIZE + |lay.spaces[i].vmas| * VMA_ROOM
      case OpMalloc(bytes) => HeapRuns.Align8(bytes) + HEADER_SIZE
      case _ => 0
  }

  function RoomBefore(ops: seq<Op>, lay: Layout, n: nat): nat
    requires n <= |ops|
  {
    if n == 0 then 0 else RoomBefore(ops, lay, n - 1) + Room(ops[n - 1], PlanAfter(ops, lay, n - 1))
  }

  // What is left of the room is nothing or one more header at least.
  lemma {:induction false} RoomGrows(ops: seq<Op>, lay: Layout, n: nat, m: nat)
    requires n <= m <= |ops|
    ensures var rest := RoomBefore(ops, lay, m) - RoomBefore(ops, lay, n); rest == 0 || rest >= HEADER_SIZE
    decreases m
  {
    hide Planned, Applies;
    if n < m {
      RoomGrows(ops, lay, n, m - 1);
    }
  }

  lemma {:induction false} FirstTaken(bs: seq<Block>, lo: nat, hi: nat, size: nat, rest: nat)
    requires HasRoom(bs, size + HEADER_SIZE + rest) && (rest == 0 || rest >= MIN_SPLIT) && Tiles(bs, lo, hi)
    requires size % 8 == 0
    ensures Fits(bs, size) && HasRoom(AllocFirst(bs, size), rest) && Tiles(AllocFirst(bs, size), lo, hi)
  {
    hide Tiles, AllocAt, HasRoom, FirstFit;
    RoomLeft(bs, size, size + HEADER_SIZE + rest);
    AllocTiles(bs, lo, hi, FirstFit(bs, size, 0), size);
  }

  lemma {:induction false} ManyTaken(bs: seq<Block>, lo: nat, hi: nat, n: nat, rest: nat)
    requires HasRoom(bs, n * VMA_ROOM + rest) && (rest == 0 || rest >= MIN_SPLIT) && Tiles(bs, lo, hi)
    ensures RoomFor(bs, n) && HasRoom(AllocMany(bs, SIZEOF_VMA, n), rest)
    ensures Tiles(AllocMany(bs, SIZEOF_VMA, n), lo, hi)
  {
    hide Tiles, AllocFirst;
    LessRoom(bs, n * VMA_ROOM + rest, n * VMA_ROOM);
    if n > 0 {
      assert n * VMA_ROOM + rest == (n - 1) * VMA_ROOM + (VMA_ROOM + rest);
      ManyTaken(bs, lo, hi, n - 1, VMA_ROOM + rest);
      FirstTaken(AllocMany(bs, SIZEOF_VMA, n - 1), lo, hi, SIZEOF_VMA, rest);
    }
  }

  lemma LessRoom(bs: seq<Block>, w: nat, w': nat)
    requires HasRoom(bs, w) && w' <= w
    ensures HasRoom(bs, w')
  {
  }

  // A growing heap keeps its room.
  lemma {:induction false} GrowthKeepsRoom(bs: seq<Block>, lo: nat, top: nat, n: nat, w: nat)
    requires Tiles(bs, lo, top) && HasRoom(bs, w)
    ensures Tiles(Expand(bs, top, n, AsWritten), lo, top + n * PAGE_SIZE) && HasRoom(Expand(bs, top, n, AsWritten), w)
  {
    hide Tiles, Expand;
    ExpandNone(bs, top, AsWritten);
    if n > 0 {
      ExpandForm(bs, lo, top, n, AsWritten);
      if w > 0 {
        var i :| 0 <= i < |bs| && bs[i].free && bs[i].size >= w;
        assert Expand(bs, top, n, AsWritten)[i].free;
      }
    }
  }

  // One operation uses up its room and no more.
  lemma {:induction false} RoomStep(op: Op, lay: Layout, rest: nat)
    requires Tiles(lay.blocks, HEAP_BASE, lay.top) && !op.OpFree? && !op.OpKfree?
    requires HasRoom(lay.blocks, Room(op, lay) + rest) && (rest == 0 || rest >= HEADER_SIZE)
    ensures HeapRoom(op, lay) && HasRoom(Planned(op, lay).blocks, rest)
    ensures Tiles(Planned(op, lay).blocks, HEAP_BASE, Planned(op, lay).top)
  {
    hide Tiles, HasRoom, AllocFirst, AllocMany, Fits, Expand, HeapRuns.Align8, NewRange, RoomFor, Longer, ManyPtrs,
      FirstPtr;
    if Applies(op, lay) {
      match op
      case OpNew => FirstTaken(lay.blocks, HEAP_BASE, lay.top, SIZEOF_MM, rest);
      case OpMap(_, _, size, _) =>
        if size > 0 {
          FirstTaken(lay.blocks, HEAP_BASE, lay.top, SIZEOF_VMA, rest);
        }
      case OpFork(i) =>
        var n := |lay.spaces[i].vmas|;
        FirstTaken(lay.blocks, HEAP_BASE, lay.top, SIZEOF_MM, n * VMA_ROOM + rest);
        ManyTaken(AllocFirst(lay.blocks, SIZEOF_MM), HEAP_BASE, lay.top, n, rest);
      case OpMalloc(bytes) =>
        HeapRuns.Align8Multiple();
        FirstTaken(lay.blocks, HEAP_BASE, lay.top, HeapRuns.Align8(bytes), rest);
      case OpGrow(n) => GrowthKeepsRoom(lay.blocks, HEAP_BASE, lay.top, n, rest);
      case _ =>
    }
  }

  lemma {:induction false} RoomSuffices(ops: seq<Op>, lay: Layout, n: nat)
    requires NoReleases(ops) && Tiles(lay.blocks, HEAP_BASE, lay.top) && n <= |ops|
    requires HasRoom(lay.blocks, RoomBefore(ops, lay, |ops|))
    ensures Tiles(PlanAfter(ops, lay, n).blocks, HEAP_BASE, PlanAfter(ops, lay, n).top)
    ensures RoomBefore(ops, lay, n) <= RoomBefore(ops, lay, |ops|)
    ensures HasRoom(PlanAfter(ops, lay, n).blocks, RoomBefore(ops, lay, |ops|) - RoomBefore(ops, lay, n))
    ensures n < |ops| ==> HeapRoom(ops[n], PlanAfter(ops, lay, n))
  {
    hide Tiles, HasRoom, Room, HeapRoom, Planned;
    var all := RoomBefore(ops, lay, |ops|);
    RoomGrows(ops, lay, n, |ops|);
    if n > 0 {
      RoomSuffices(ops, lay, n - 1);
      RoomStep(ops[n - 1], PlanAfter(ops, lay, n - 1), all - RoomBefore(ops, lay, n));
    }
    if n < |ops| {
      RoomGrows(ops, lay, n + 1, |ops|);
      RoomStep(ops[n], PlanAfter(ops, lay, n), all - RoomBefore(ops, lay, n + 1));
    }
  }

  // Without kfree, room for all blocks is enough, and nothing can go wrong.
  lemma {:induction false} NoFreesFit(ops: seq<Op>, lay: Layout)
    requires NoReleases(ops) && Tiles(lay.blocks, HEAP_BASE, lay.top)
    requires HasRoom(lay.blocks, RoomBefore(ops, lay, |ops|))
    ensures PlanFits(ops, lay) && PlanCareful(ops, lay)
  {
    hide Tiles, HasRoom, HeapRoom, Applies;
    forall n | 0 <= n < |ops| ensures HeapRoom(ops[n], PlanAfter(ops, lay, n)) {
      RoomSuffices(ops, lay, n);
    }
  }

  // ---- What a caller of kmalloc holds ----

  // One operation leaves a caller his block under the size he was granted, unless he gives it back himself.
  lemma {:induction false} OtherStays(op: Op, s: SysState, st: HeapStep, s': SysState, p: nat)
    requires StateOk(s) && s.intact && OpStep(op, s, st, s') && p in s.others && op != OpKfree(p)
    ensures p in s'.others && s'.others[p] == s.others[p]
  {
    hide AnyStep, AsPlanned, Enough, MemoryStep, MemoryOk, Accounted, Tiles, NewRange, StackFits, LostLast, MapEffect,
      ForkEffect, VmaAppeared, SpaceAppeared, NewOnly, InUse, HeapRuns.Kmalloc, HeapRuns.Align8, HeapRuns.Granted,
      LayoutOf, Expand, Rest, AllInUse;
    if op.OpMalloc? && Applies(op, LayoutOf(s)) {
      var supply: nat :| MallocWith(supply, op.bytes, s, st, s');
      HeapRuns.Align8Multiple();
      KmallocKeeps(s.blocks, HEAP_BASE, s.top, HeapRuns.Align8(op.bytes), supply);
      OtherInUse(s, p);
    }
  }

  lemma {:induction false} OtherInUse(s: SysState, p: nat)
    requires StateOk(s) && s.intact && p in s.others
    ensures InUse(s.blocks, p, s.others[p]) && InUse(s.blocks, p, 0)
  {
    hide MemoryOk, Accounted, Tiles, InUse, Registered, ListedFor;
    assert Sizes(s.held)[p] == s.others[p];
    Lesser(s.blocks, p, s.others[p]);
  }

  // Over every run, as long as the heap is intact, whoever has been granted a block by kmalloc and has not
  // given it back has a block in use of at least that many bytes.
  lemma {:induction false} RequestStaysHeld(ops: seq<Op>, states: seq<SysState>, steps: seq<HeapStep>, n: nat, m: nat,
                                            p: nat)
    requires Chain(ops, states, steps) && n <= m <= |steps| && states[m].intact && p in states[n].others
    requires forall k :: n <= k < m ==> ops[k] != OpKfree(p)
    ensures p in states[m].others && states[m].others[p] == states[n].others[p]
    ensures InUse(states[m].blocks, p, states[n].others[p])
    decreases m
  {
    hide Chain, StateOk, OpStep, InUse, StepCareful;
    ChainLength(ops, states, steps);
    StateAt(ops, states, steps, m);
    if n < m {
      ChainAt(ops, states, steps, m - 1);
      IntactNext(ops[m - 1], states[m - 1], steps[m - 1], states[m]);
      RequestStaysHeld(ops, states, steps, n, m - 1, p);
      OtherStays(ops[m - 1], states[m - 1], steps[m - 1], states[m], p);
    }
    OtherInUse(states[m], p);
  }

  // ---- From boot ----

  // kheap_init(4) and the first stack
  function BootLayout(): Layout {
    Layout([Block(HEAP_BASE, 4 * PAGE_SIZE - HEADER_SIZE, true)], HEAP_BASE + 4 * PAGE_SIZE, [], map[], [1],
           1 + STACK_PAGES)
  }

  lemma {:induction false} BootFits(ops: seq<Op>)
    requires NoReleases(ops) && RoomBefore(ops, BootLayout(), |ops|) <= 4 * PAGE_SIZE - HEADER_SIZE
    ensures PlanFits(ops, BootLayout()) && PlanCareful(ops, BootLayout())
  {
    hide RoomBefore, PlanFits, PlanCareful, NoReleases;
    var bs := BootLayout().blocks;
    assert bs[0].free && bs[0].size >= RoomBefore(ops, BootLayout(), |ops|);
    assert forall i: nat :: Adjacent(bs, i);
    NoFreesFit(ops, BootLayout());
  }

  // A run with enough room and frames does not run out.
  lemma {:induction false} NeverRunsOut(ops: seq<Op>, lay: Layout, states: seq<SysState>, steps: seq<HeapStep>)
    requires Chain(ops, states, steps) && PlanEnough(ops, lay, states[0])
    ensures !RanOut(ops, states, |steps|)
  {
    hide Chain, Enough, PlanEnough, OnPlan, LayoutOf;
    ChainLength(ops, states, steps);
    RunIsPlanned(ops, lay, states, steps, |steps|);
  }

  // A run with heap room and with frames for all its operations besides the 33 of the boot sequence
  // goes to its end, and was decided before it began: every holder keeps his own block all the way
  // if and only if the planned kfree calls are careful. It ends in the planned layout, and no frame
  // is lost.
  ghost predicate DecidedBefore(ops: seq<Op>, states: seq<SysState>, alive: bool, free: nat) {
    PlanFits(ops, BootLayout()) && free >= 33 + FramesBefore(ops, BootLayout(), |ops|) ==>
      && alive && (AllHonest(states) <==> PlanCareful(ops, BootLayout()))
      && |ops| < |states| && OnPlan(ops, BootLayout(), states[0], states[|ops|], |ops|) && states[0].failures == 0
  }

  // If no operation releases anything, the four pages of the first heap are all the room it needs, and
  // every holder keeps his block.
  ghost predicate SafeWithoutKfree(ops: seq<Op>, states: seq<SysState>, alive: bool, free: nat) {
    NoReleases(ops) && RoomBefore(ops, BootLayout(), |ops|) <= 4 * PAGE_SIZE - HEADER_SIZE
    && free >= 33 + FramesBefore(ops, BootLayout(), |ops|) ==>
      alive && AllHonest(states) && |ops| < |states| && states[|ops|].failures == 0
  }

  // How a run ends that had enough from the start.
  lemma {:induction false} RunEnds(ops: seq<Op>, states: seq<SysState>, steps: seq<HeapStep>, alive: bool, free: nat)
    requires Chain(ops, states, steps) && states[0].intact && |states[0].views| == |states[0].ptrs|
    requires if alive then |steps| == |ops| else RanOut(ops, states, |steps|)
    requires free >= 33 ==>
               LayoutOf(states[0]) == BootLayout() && states[0].failures == 0 && states[0].free + 33 >= free
    ensures DecidedBefore(ops, states, alive, free) && SafeWithoutKfree(ops, states, alive, free)
  {
    hide Chain, AllCareful, AllHonest, PlanFits, PlanCareful, LayoutOf, RanOut, BootLayout, NoReleases, PlanAfter,
      FramesBefore, RoomBefore;
    ChainLength(ops, states, steps);
    if NoReleases(ops) && RoomBefore(ops, BootLayout(), |ops|) <= 4 * PAGE_SIZE - HEADER_SIZE {
      BootFits(ops);
    }
    if PlanFits(ops, BootLayout()) && free >= 33 + FramesBefore(ops, BootLayout(), |ops|) {
      NeverRunsOut(ops, BootLayout(), states, steps);
      PlannedRun(ops, BootLayout(), states, steps);
    }
  }

  lemma NoRun(ops: seq<Op>, free: nat)
    requires free < 33
    ensures DecidedBefore(ops, [], false, free) && SafeWithoutKfree(ops, [], false, free)
  {
  }

  // ---- Every frame in every state ----

  // Frame f, given what was busy before boot, is a table, a page, reserved or lost, and only one of
  // these, or it is free.
  ghost predicate OneOwner(bits0: seq<bool>, s: SysState, f: nat)
    requires f < |bits0| == |s.bits|
  {
    var lost := s.stray - BusySet(bits0);
    && (s.bits[f] <==> f in s.tab || f in s.pages || bits0[f] || f in lost)
    && (f in s.tab ==> f !in s.pages && !bits0[f] && f !in lost) && (f in s.pages ==> !bits0[f] && f !in lost)
    && (bits0[f] ==> f !in lost)
  }

  lemma {:induction false} LossesSoFar(ops: seq<Op>, states: seq<SysState>, steps: seq<HeapStep>, n: nat)
    requires Chain(ops, states, steps) && n <= |steps|
    ensures |states[n].bits| == |states[0].bits|
    ensures Losses(states[0].stray, states[0].failures, states[n].stray, states[n].failures)
  {
    hide Chain, StateOk, OpStep, Losses;
    ChainLength(ops, states, steps);
    LossesRefl(states[0].stray, states[0].failures);
    if n > 0 {
      LossesSoFar(ops, states, steps, n - 1);
      ChainAt(ops, states, steps, n - 1);
      StepLosses(ops[n - 1], states[n - 1], steps[n - 1], states[n]);
      LossesTrans(states[0].stray, states[0].failures, states[n - 1].stray, states[n - 1].failures, states[n].stray,
                  states[n].failures);
    }
  }

  lemma StepLosses(op: Op, s: SysState, st: HeapStep, s': SysState)
    requires OpStep(op, s, st, s')
    ensures Losses(s.stray, s.failures, s'.stray, s'.failures) && |s'.bits| == |s.bits|
  {
  }

  // Each busy frame has one owner, and exactly as many frames are lost as tables could not be had.
  ghost predicate FramesOwned(bits0: seq<bool>, s: SysState) {
    && |s.bits| == |bits0| && (forall f: nat :: f < |bits0| ==> OneOwner(bits0, s, f))
    && |s.stray - BusySet(bits0)| == s.failures
  }

  // So it is in every state of every run from boot.
  lemma {:induction false} EachFrameOnce(ops: seq<Op>, states: seq<SysState>, steps: seq<HeapStep>, bits0: seq<bool>,
                                         n: nat)
    requires Chain(ops, states, steps) && n <= |steps| && |states[0].bits| == |bits0|
    requires Losses(BusySet(bits0), 0, states[0].stray, states[0].failures)
    ensures FramesOwned(bits0, states[n])
  {
    hide Chain, OpStep, BusySet;
    ChainLength(ops, states, steps);
    LossesSoFar(ops, states, steps, n);
    LossesTrans(BusySet(bits0), 0, states[0].stray, states[0].failures, states[n].stray, states[n].failures);
    StateAt(ops, states, steps, n);
    OwnersOf(bits0, states[n]);
  }

  lemma StateAt(ops: seq<Op>, states: seq<SysState>, steps: seq<HeapStep>, n: nat)
    requires Chain(ops, states, steps) && n <= |steps|
    ensures StateOk(states[n])
  {
    hide StateOk, OpStep;
    assert OkAt(states, n);
  }

  lemma {:induction false} OwnersOf(bits0: seq<bool>, s: SysState)
    requires StateOk(s) && |s.bits| == |bits0| && Losses(BusySet(bits0), 0, s.stray, s.failures)
    ensures forall f: nat :: f < |bits0| ==> OneOwner(bits0, s, f)
    ensures |s.stray - BusySet(bits0)| == s.failures
  {
    hide Tiles, HeapHeld;
    assert s.stray == BusySet(bits0) + (s.stray - BusySet(bits0));
  }
}
