/** Address spaces over whole runs: a space that no operation addresses keeps its areas, translations and
    page contents; the copies of a fork outlive whatever happens to the parent; and a space has exactly
    the pages of its areas mapped as long as no table was missing.
  */
module SystemSpaces {
  import opened Common
  import opened Pte
  import opened PageTable
  import opened Machine
  import opened MapPages
  import opened HeapSpec
  import HeapRuns
  import opened HeapUse
  import opened Holders
  import opened Kstack
  import opened Vmm
  import opened Fork
  import opened Teardown
  import opened SystemMem
  import opened SystemSpec
  import opened SystemRuns

  // ---- Spaces that are left alone ----

  // The operation maps a range in the space of this root, or releases it.
  predicate Addressed(op: Op, s: SysState, root: nat) {
    0 <= Target(op) < |s.views| && s.views[Target(op)].root == root
  }

  // No operation of the run from the n-th to before the m-th does.
  predicate LeftAlone(ops: seq<Op>, states: seq<SysState>, n: nat, m: nat, root: nat) {
    m <= |ops| && m <= |states| && forall k {:trigger states[k]} :: n <= k < m ==> !Addressed(ops[k], states[k], root)
  }

  lemma AloneSoFar(ops: seq<Op>, states: seq<SysState>, n: nat, m: nat, root: nat)
    requires n < m && LeftAlone(ops, states, n, m, root)
    ensures LeftAlone(ops, states, n, m - 1, root) && !Addressed(ops[m - 1], states[m - 1], root)
  {
    hide Addressed;
    assert m - 1 < |states|;
  }

  // What an operation does to the list of spaces.
  ghost predicate ViewsAfter(op: Op, s: SysState, s': SysState) {
    match op
    case OpMap(i, _, _, _) =>
      |s'.views| == |s.views| && forall j :: 0 <= j < |s.views| && j != i ==> s'.views[j] == s.views[j]
    case OpFree(i) => i < |s.views| && s'.views == s.views[..i] + s.views[i + 1..]
    case _ => |s.views| <= |s'.views| <= |s.views| + 1 && s'.views[..|s.views|] == s.views
  }

  lemma {:induction false} ViewsMove(op: Op, s: SysState, st: HeapStep, s': SysState)
    requires Applies(op, LayoutOf(s)) && OwnStep(op, s, st, s')
    ensures ViewsAfter(op, s, s')
  {
    hide MapEffect, ForkEffect, SpaceOk, NewRange, StackFits, LostLast, Longer, VmaAppeared, WithVmas, Rest, InUse,
      NewOnly, NoLoss, Expand, HeapRuns.Kmalloc, LayoutOf, Applies;
    ApplyIndex(op, s);
  }

  lemma OwnPart(op: Op, s: SysState, st: HeapStep, s': SysState)
    requires OpStep(op, s, st, s') && Applies(op, LayoutOf(s))
    ensures OwnStep(op, s, st, s') && SpacesKept(s.views, Target(op), s.mem, s'.mem)
  {
    hide AnyStep, OwnStep, AsPlanned, Enough, SpacesKept, KernelKept, LayoutOf, Applies, Target;
  }

  lemma IdlePart(op: Op, s: SysState, st: HeapStep, s': SysState)
    requires OpStep(op, s, st, s') && !Applies(op, LayoutOf(s))
    ensures s' == s
  {
    hide AnyStep, OwnStep, AsPlanned, Enough, SpacesKept, KernelKept, LayoutOf, Applies, Target;
  }

  lemma {:induction false} StillListed(op: Op, s: SysState, st: HeapStep, s': SysState, v: SpaceView)
    requires OpStep(op, s, st, s') && v in s.views && !Addressed(op, s, v.root)
    ensures v in s'.views
  {
    hide OpStep, OwnStep, LayoutOf, Applies;
    var i :| 0 <= i < |s.views| && s.views[i] == v;
    if Applies(op, LayoutOf(s)) {
      OwnPart(op, s, st, s');
      ViewsMove(op, s, st, s');
      assert s'.views[if op.OpFree? && op.i < i then i - 1 else i] == v;
    } else {
      IdlePart(op, s, st, s');
    }
  }

  lemma ApplyIndex(op: Op, s: SysState)
    requires Applies(op, LayoutOf(s))
    ensures Target(op) < |s.views| && (op.OpFork? ==> op.i < |s.views|)
    ensures op.OpFreeStack? ==> op.j < |s.stacks|
  {
    hide NewRange;
  }

  lemma {:induction false} StepKeeps(op: Op, s: SysState, st: HeapStep, s': SysState, v: SpaceView)
    requires StateOk(s) && OpStep(op, s, st, s') && v in s.views && !Addressed(op, s, v.root)
    ensures SpaceKept(s.mem, s'.mem, v.root)
  {
    hide AnyStep, OwnStep, AsPlanned, Enough, SpaceKept, Accounted, MemoryOk, Tiles, HeapHeld, LayoutOf, Applies,
      Target;
    var i :| 0 <= i < |s.views| && s.views[i] == v;
    assert i != Target(op);
  }

  lemma {:induction false} SelfKept(s: SysState, v: SpaceView)
    requires StateOk(s) && v in s.views
    ensures SpaceKept(s.mem, s.mem, v.root)
  {
    hide StateOk, SpaceKept;
    MemorySame(OpNew, s, s);
    var i :| 0 <= i < |s.views| && s.views[i] == v;
    OneKept(s.views, -1, s.mem, s.mem, i);
  }

  // A space that is left alone is still there, with its areas, and each of its user pages still leads to
  // the same frame with the same contents, whatever the other operations map, fork, release or grow.
  lemma {:induction false} AloneIsKept(ops: seq<Op>, states: seq<SysState>, steps: seq<HeapStep>, n: nat, m: nat,
                                       v: SpaceView)
    requires Chain(ops, states, steps) && n <= m <= |steps| && v in states[n].views
    requires LeftAlone(ops, states, n, m, v.root)
    ensures v in states[m].views && SpaceKept(states[n].mem, states[m].mem, v.root)
    decreases m
  {
    hide Chain, StateOk, OpStep, SpaceKept, Addressed, LeftAlone;
    ChainLength(ops, states, steps);
    if n == m {
      StateAt(ops, states, steps, n);
      SelfKept(states[n], v);
    } else {
      AloneSoFar(ops, states, n, m, v.root);
      AloneIsKept(ops, states, steps, n, m - 1, v);
      ChainAt(ops, states, steps, m - 1);
      ViewsMatch(states[m - 1]);
      StillListed(ops[m - 1], states[m - 1], steps[m - 1], states[m], v);
      StepKeeps(ops[m - 1], states[m - 1], steps[m - 1], states[m], v);
      SpaceKeptTrans(states[n].mem, states[m - 1].mem, states[m].mem, v.root);
    }
  }

  lemma {:induction false} ListedIsRoot(s: SysState, v: SpaceView)
    requires StateOk(s) && v in s.views
    ensures IsRoot(s.tab, v.root) && v.root != s.kroot && VmasOk(v.vmas)
  {
    hide Accounted, SpaceWf, Held, Booted, StacksOk, Tiles, HeapHeld;
    var i :| 0 <= i < |s.views| && s.views[i] == v;
    HeldParts(s.mem, s.tab, s.kroot, s.views, i);
  }

  lemma {:induction false} SameKernel(ops: seq<Op>, states: seq<SysState>, steps: seq<HeapStep>, n: nat, m: nat)
    requires Chain(ops, states, steps) && n <= m <= |steps|
    ensures states[m].kroot == states[n].kroot
    decreases m
  {
    hide Chain, StateOk, OpStep;
    ChainLength(ops, states, steps);
    if n < m {
      SameKernel(ops, states, steps, n, m - 1);
      ChainAt(ops, states, steps, m - 1);
      KernelStays(ops[m - 1], states[m - 1], steps[m - 1], states[m]);
    }
  }

  lemma KernelStays(op: Op, s: SysState, st: HeapStep, s': SysState)
    requires OpStep(op, s, st, s')
    ensures s'.kroot == s.kroot
  {
    hide OwnStep, AsPlanned, Enough, MemoryStep, Losses, UsedKept, RegistryOk, StepCareful, Honest, LayoutOf, Applies;
  }

  // ---- Forks ----

  // Operation n was a fork that made this child and lost no frame.
  ghost predicate Forked(ops: seq<Op>, states: seq<SysState>, n: nat, i: nat, child: SpaceView) {
    && n < |ops| && n + 1 < |states| && ops[n] == OpFork(i) && i < |states[n].views|
    && states[n + 1].views == states[n].views + [child] && states[n + 1].failures == states[n].failures
  }

  lemma {:induction false} ForkStepCopies(i: nat, s: SysState, st: HeapStep, s': SysState, child: SpaceView)
    requires StateOk(s) && StateOk(s') && OpStep(OpFork(i), s, st, s') && i < |s.views|
    requires s'.views == s.views + [child] && s'.failures == s.failures
    ensures child.vmas == s.views[i].vmas
    ensures ForkEffect(s.mem, s.tab, s.pages, s'.mem, s'.tab, s'.kroot, s.views[i].root, child.root, child.vmas)
  {
    hide AnyStep, AsPlanned, Enough, MemoryStep, ForkEffect, Accounted, MemoryOk, Tiles, HeapHeld, StackFits,
      LostLast, WithVmas, InUse, NewOnly, LayoutOf, Applies;
    assert |s'.views| == |s.views| + 1;
    assert s'.views[|s.views|] == child;
  }

  // A fork copies every mapped page of a parent that maps exactly its areas, and the child keeps these
  // copies, at their places and with their contents, as long as it is left alone: also when the parent
  // has mapped more, forked again or been released.
  lemma {:induction false} CopiesOutliveParent(ops: seq<Op>, states: seq<SysState>, steps: seq<HeapStep>, n: nat,
                                               m: nat, i: nat, child: SpaceView)
    requires Chain(ops, states, steps) && n < m <= |steps| && Forked(ops, states, n, i, child)
    requires LeftAlone(ops, states, n + 1, m, child.root)
    ensures child in states[m].views && child.vmas == states[n].views[i].vmas
    ensures ForkEffect(states[n].mem, states[n].tab, states[n].pages, states[m].mem, states[m].tab, states[m].kroot,
                       states[n].views[i].root, child.root, child.vmas)
  {
    hide Chain, StateOk, OpStep, SpaceKept, LeftAlone, ForkEffect;
    ChainLength(ops, states, steps);
    ChainAt(ops, states, steps, n);
    ForkStepCopies(i, states[n], steps[n], states[n + 1], child);
    assert states[n + 1].views[|states[n].views|] == child;
    AloneIsKept(ops, states, steps, n + 1, m, child);
    SameKernel(ops, states, steps, n + 1, m);
    StateAt(ops, states, steps, m);
    ListedIsRoot(states[m], child);
    ForkOn(states[n].mem, states[n].tab, states[n].pages, states[n + 1].mem, states[n + 1].tab, states[m].mem,
           states[m].tab, states[m].kroot, states[n].views[i].root, child.root, child.vmas);
  }

  // ---- Exactly the pages of the areas ----

  ghost predicate ExactAt(s: SysState, i: nat)
    requires i < |s.views|
  {
    SpaceOk(s.mem, s.tab, s.kroot, s.views[i].root, s.views[i].vmas)
  }

  ghost predicate AllExact(s: SysState) { forall i {:trigger ExactAt(s, i)} :: 0 <= i < |s.views| ==> ExactAt(s, i) }

  // A space that the operation did not address, at its place before and after.
  lemma {:induction false} ExactMoves(op: Op, s: SysState, s': SysState, i: nat, j: nat)
    requires StateOk(s) && StateOk(s') && s'.kroot == s.kroot && AllExact(s)
    requires SpacesKept(s.views, Target(op), s.mem, s'.mem)
    requires i < |s.views| && i != Target(op) && j < |s'.views| && s'.views[j] == s.views[i]
    ensures ExactAt(s', j)
  {
    hide StateOk, SpacesKept, SpaceOk, SpaceKept, Target;
    assert ExactAt(s, i);
    OneKept(s.views, Target(op), s.mem, s'.mem, i);
    ListedIsRoot(s', s'.views[j]);
    ExactStays(s.mem, s.tab, s'.mem, s'.tab, s.kroot, s.views[i].root, s.views[i].vmas);
  }

  lemma {:induction false} MapExact(i: nat, va: nat, size: nat, flags: nat, s: SysState, st: HeapStep, s': SysState)
    requires AllExact(s) && s'.failures == s.failures && s'.kroot == s.kroot && !st.linked
    requires i < |s.views| == |s.ptrs| && MapStep(i, va, size, flags, s, st, s')
    ensures |s'.views| == |s.views| && ExactAt(s', i)
  {
    hide SpaceOk, RestKept, RangeMapped, RangeUnmapped, LostLast, VmaAppeared, FirstPage, PageSpan, PteFlags, Longer;
    assert ExactAt(s, i);
  }

  // One operation that misses no table and leaves no released VMA linked.
  lemma {:induction false} StepExact(op: Op, s: SysState, st: HeapStep, s': SysState)
    requires StateOk(s) && StateOk(s') && OpStep(op, s, st, s') && AllExact(s)
    requires s'.failures == s.failures && !st.linked
    ensures AllExact(s')
  {
    hide StateOk, OpStep, OwnStep, MemoryStep, SpacesKept, LayoutOf, Applies, ExactAt, MapStep, NewStep;
    ViewsMatch(s);
    KernelStays(op, s, st, s');
    if !Applies(op, LayoutOf(s)) {
      IdlePart(op, s, st, s');
    } else {
      OwnPart(op, s, st, s');
      ViewsMove(op, s, st, s');
      forall j | 0 <= j < |s'.views| ensures ExactAt(s', j) {
        PlaceExact(op, s, st, s', j);
      }
    }
  }

  lemma {:induction false} PlaceExact(op: Op, s: SysState, st: HeapStep, s': SysState, j: nat)
    requires StateOk(s) && StateOk(s') && OpStep(op, s, st, s') && AllExact(s) && s'.kroot == s.kroot
    requires s'.failures == s.failures && !st.linked && Applies(op, LayoutOf(s)) && OwnStep(op, s, st, s')
    requires SpacesKept(s.views, Target(op), s.mem, s'.mem) && ViewsAfter(op, s, s') && j < |s'.views|
    ensures ExactAt(s', j)
  {
    hide StateOk, OpStep, SpacesKept, LayoutOf, ExactAt, AllExact, MapStep, NewStep, FreeStep, ForkStep, StackStep,
      UnstackStep, GrowStep, MallocStep, KfreeStep, NewRange, StackFits;
    ViewsMatch(s);
    ApplyIndex(op, s);
    if op.OpMap? && j == op.i {
      MapExact(op.i, op.va, op.size, op.flags, s, st, s');
    } else if op.OpFree? {
      ExactMoves(op, s, s', if j < op.i then j else j + 1, j);
    } else if j < |s.views| {
      ExactMoves(op, s, s', j, j);
    } else if op.OpFork? {
      ForkExact(op.i, s, st, s');
    } else {
      NoneAdded(op, s, st, s');
      NewExact(s, st, s');
    }
  }

  lemma NoneAdded(op: Op, s: SysState, st: HeapStep, s': SysState)
    requires Applies(op, LayoutOf(s)) && OwnStep(op, s, st, s') && |s'.views| > |s.views|
    ensures op.OpNew? || op.OpFork?
  {
    hide MapEffect, ForkEffect, SpaceOk, NewRange, StackFits, LostLast, Longer, VmaAppeared, WithVmas, Rest, InUse,
      NewOnly, NoLoss, Expand, HeapRuns.Kmalloc, LayoutOf, Applies;
    ApplyIndex(op, s);
  }

  lemma NewExact(s: SysState, st: HeapStep, s': SysState)
    requires NewStep(s, st, s') && |s'.views| > |s.views| == |s.ptrs|
    ensures |s'.views| == |s.views| + 1 && ExactAt(s', |s.views|)
  {
    hide SpaceOk, WithVmas, InUse, NewOnly, NoLoss;
  }

  lemma {:induction false} ForkExact(i: nat, s: SysState, st: HeapStep, s': SysState)
    requires StateOk(s) && StateOk(s') && OpStep(OpFork(i), s, st, s') && i < |s.views| && |s'.views| > |s.views|
    requires AllExact(s) && s'.failures == s.failures && s'.kroot == s.kroot
    ensures |s'.views| == |s.views| + 1 && ExactAt(s', |s.views|)
  {
    hide OpStep, StateOk, SpaceOk;
    ForkGrows(i, s, st, s');
    ForkStepCopies(i, s, st, s', s'.views[|s.views|]);
    assert ExactAt(s, i);
  }

  lemma ForkGrows(i: nat, s: SysState, st: HeapStep, s': SysState)
    requires StateOk(s) && OpStep(OpFork(i), s, st, s') && |s'.views| > |s.views|
    ensures |s'.views| == |s.views| + 1 && s'.views == s.views + [s'.views[|s.views|]]
  {
    hide AnyStep, AsPlanned, Enough, MemoryStep, ForkEffect, Accounted, MemoryOk, Tiles, HeapHeld, StackFits,
      LostLast, WithVmas, InUse, NewOnly, LayoutOf, Applies;
  }

  // As long as no table was missing and no failed mm_map_range has left a released VMA linked, every live
  // space has exactly the pages of its areas mapped.
  lemma {:induction false} ExactSoFar(ops: seq<Op>, states: seq<SysState>, steps: seq<HeapStep>, n: nat)
    requires Chain(ops, states, steps) && n <= |steps| && AllExact(states[0])
    requires states[n].failures == states[0].failures && forall k :: 0 <= k < n ==> !steps[k].linked
    ensures AllExact(states[n])
  {
    hide Chain, StateOk, OpStep, AllExact, Losses;
    ChainLength(ops, states, steps);
    if n > 0 {
      ChainAt(ops, states, steps, n - 1);
      LossesSoFar(ops, states, steps, n - 1);
      StepLosses(ops[n - 1], states[n - 1], steps[n - 1], states[n]);
      LossesGrow(states[0].stray, states[0].failures, states[n - 1].stray, states[n - 1].failures);
      LossesGrow(states[n - 1].stray, states[n - 1].failures, states[n].stray, states[n].failures);
      ExactSoFar(ops, states, steps, n - 1);
      StepExact(ops[n - 1], states[n - 1], steps[n - 1], states[n]);
    }
  }

  // From boot: in every state without a lost frame that no careless kfree has led to.
  lemma {:induction false} ExactFromBoot(ops: seq<Op>, states: seq<SysState>, steps: seq<HeapStep>)
    requires Chain(ops, states, steps) && states[0].views == [] && states[0].intact
    ensures forall n :: 0 <= n < |states| && states[n].failures == 0 && states[n].intact ==> AllExact(states[n])
  {
    hide Chain, StateOk, OpStep, ExactAt, Losses, StepCareful;
    ChainLength(ops, states, steps);
    forall n | 0 <= n < |states| && states[n].failures == 0 && states[n].intact ensures AllExact(states[n]) {
      LossesSoFar(ops, states, steps, n);
      LossesGrow(states[0].stray, states[0].failures, states[n].stray, states[n].failures);
      IntactSoFar(ops, states, steps, n);
      forall k | 0 <= k < n ensures !steps[k].linked {
        NotLinked(steps[k], states[k + 1]);
      }
      ExactSoFar(ops, states, steps, n);
    }
  }

  lemma NotLinked(st: HeapStep, s: SysState)
    requires StepCareful(st, s)
    ensures !st.linked
  {
    hide Careful;
  }

  // ---- Rights ----

  // In every state of a run, whatever failed on the way: a mapped page of an area can be used from user
  // mode at all four levels, its own entry allows writes exactly when the area has VM_WRITE, and while
  // all areas of the space have it, so do the three entries above.
  lemma {:induction false} RightsInEveryState(ops: seq<Op>, states: seq<SysState>, steps: seq<HeapStep>, n: nat,
                                              i: nat, k: nat, v: nat)
    requires Chain(ops, states, steps) && n < |states| && i < |states[n].views|
    requires k < |states[n].views[i].vmas| && Covers(states[n].views[i].vmas[k], v)
    requires Present(Entry(states[n].mem, states[n].views[i].root, v))
    ensures var s, root := states[n], states[n].views[i].root;
            var writable := s.views[i].vmas[k].flags / VM_WRITE % 2 == 1;
            && (forall e :: e in WalkEntries(s.mem, root, v) ==> Present(e) && RightsOf(e).user)
            && (RightsOf(Entry(s.mem, root, v)).write <==> writable)
            && PageRights(s.mem, root, v).user && (PageRights(s.mem, root, v).write ==> writable)
            && (AllWritable(s.views[i].vmas) ==> PageRights(s.mem, root, v) == ALL_RIGHTS)
  {
    hide Chain, StateOk, Covered, Entry, UpperRights, RightsOf, WalkEntries, Present;
    ChainLength(ops, states, steps);
    StateAt(ops, states, steps, n);
    var s := states[n];
    ViewCovered(s, i);
    CoveredRights(s.mem, s.tab, s.kroot, s.views[i].root, s.views[i].vmas, k, v);
  }

  lemma ViewCovered(s: SysState, i: nat)
    requires StateOk(s) && i < |s.views|
    ensures Covered(s.mem, s.tab, s.kroot, s.views[i].root, s.views[i].vmas)
  {
    hide Covered, Booted, Accounted;
    HeldParts(s.mem, s.tab, s.kroot, s.views, i);
  }

  // ---- Kernel pages ----

  // No operation from the n-th to before the m-th gives back the stack of this page.
  predicate NotFreed(ops: seq<Op>, states: seq<SysState>, n: nat, m: nat, v: nat) {
    && m <= |ops| && m <= |states|
    && forall k {:trigger states[k]} :: n <= k < m ==> !FreedPage(FreedStack(ops[k], states[k]), v)
  }

  lemma NotFreedSoFar(ops: seq<Op>, states: seq<SysState>, n: nat, m: nat, v: nat)
    requires n < m && NotFreed(ops, states, n, m, v)
    ensures NotFreed(ops, states, n, m - 1, v) && !FreedPage(FreedStack(ops[m - 1], states[m - 1]), v)
  {
    hide FreedPage, FreedStack;
    assert m - 1 < |states|;
  }

  lemma KernelPart(op: Op, s: SysState, st: HeapStep, s': SysState)
    requires OpStep(op, s, st, s')
    ensures KernelKept(s.mem, s'.mem, s.kroot, FreedStack(op, s))
  {
    hide AnyStep, OwnStep, AsPlanned, Enough, SpacesKept, KernelKept, LayoutOf, Applies, FreedStack;
  }

  // A page of the heap, once mapped, and one of a stack, until kstack_free, keeps its frame and its contents
  // through every run.
  lemma {:induction false} KernelPageStays(ops: seq<Op>, states: seq<SysState>, steps: seq<HeapStep>, n: nat, m: nat,
                                           v: nat)
    requires Chain(ops, states, steps) && n <= m <= |steps|
    requires OwnsPage(states[n].kroot, states[n].kroot, v) && Present(Entry(states[n].mem, states[n].kroot, v))
    requires NotFreed(ops, states, n, m, v)
    ensures states[m].kroot == states[n].kroot && PageKept(states[n].mem, states[m].mem, states[n].kroot, v)
    decreases m
  {
    hide Chain, StateOk, OpStep, NotFreed, OwnsPage, Entry, Present, FrameOf;
    ChainLength(ops, states, steps);
    var kroot := states[n].kroot;
    SameKernel(ops, states, steps, n, m);
    if n == m {
      StateAt(ops, states, steps, n);
      SelfKernel(states[n]);
    } else {
      NotFreedSoFar(ops, states, n, m, v);
      KernelPageStays(ops, states, steps, n, m - 1, v);
      ChainAt(ops, states, steps, m - 1);
      ViewsMatch(states[m - 1]);
      KernelPart(ops[m - 1], states[m - 1], steps[m - 1], states[m]);
      assert PageKept(states[m - 1].mem, states[m].mem, kroot, v);
    }
  }

  lemma SelfKernel(s: SysState)
    requires StateOk(s)
    ensures KernelKept(s.mem, s.mem, s.kroot, -1)
  {
    hide StateOk, KernelKept, SpacesKept;
    MemorySame(OpNew, s, s);
  }

  // ---- Kernel stacks ----

  ghost predicate StacksReady(s: SysState) { forall x :: x in s.stacks ==> StackReady(s.mem, s.kroot, x) }

  lemma {:induction false} StaysReady(m0: Memory, m1: Memory, kroot: nat, freed: int, x: nat)
    requires KernelKept(m0, m1, kroot, freed) && StackReady(m0, kroot, x) && x + STACK_PAGES <= SLOT_PAGES
    requires freed < 0 || x + STACK_PAGES <= freed || freed + STACK_PAGES <= x
    ensures StackReady(m1, kroot, x)
  {
    hide Entry, Present, FrameOf, UpperRights, RightsOf;
    forall j | x <= j < x + STACK_PAGES ensures KernelPage(Entry(m1, kroot, StackVpn(j))) {
      StackVpnIs(j);
      assert PageKept(m0, m1, kroot, StackVpn(j));
    }
  }

  // In every state the guard page in front of a stack is unmapped, in the kernel's PML4 and in every space.
  lemma {:induction false} GuardsUnmapped(s: SysState, i: nat, r: nat)
    requires StateOk(s) && i < |s.stacks| && IsRoot(s.tab, r)
    ensures s.stacks[i] > 0 && !Present(Entry(s.mem, r, StackVpn(s.stacks[i] - 1)))
  {
    hide Accounted, PagesWf, TableWf, Held, Tiles, HeapHeld, UnmappedFrom, StacksHeld, Entry, Present;
    assert (s.stacks + s.broken)[i] == s.stacks[i];
    GuardUnmapped(s.mem, s.kroot, s.stacks + s.broken, s.next, i);
    StackVpnIs(s.stacks[i] - 1);
    KernelHalfAgrees(s.mem, s.tab, s.kroot, r, StackVpn(s.stacks[i] - 1));
  }

  // Where the stacks lie, and that the one that is given back lies apart from the others.
  lemma {:induction false} StackPlaces(s: SysState, i: nat, j: nat)
    requires StateOk(s) && i < |s.stacks| && j < |s.stacks| && i != j
    ensures s.stacks[i] + STACK_PAGES <= s.stacks[j] || s.stacks[j] + STACK_PAGES <= s.stacks[i]
  {
    hide Accounted, SpaceWf, Held, Booted, Tiles, HeapHeld;
    var all := s.stacks + s.broken;
    assert all[i] == s.stacks[i] && all[j] == s.stacks[j];
  }

  lemma {:induction false} StackInside(s: SysState, i: nat)
    requires StateOk(s) && i < |s.stacks|
    ensures s.stacks[i] + STACK_PAGES <= SLOT_PAGES
  {
    hide Accounted, SpaceWf, Held, Tiles, HeapHeld, UnmappedFrom, StacksHeld;
    assert (s.stacks + s.broken)[i] == s.stacks[i];
  }

  // A stack after an operation is a new one with its pages, or was there and has not been given back.
  ghost predicate StackAfter(op: Op, s: SysState, s': SysState, x: nat) {
    || StackReady(s'.mem, s'.kroot, x)
    || exists i :: 0 <= i < |s.stacks| && s.stacks[i] == x && !(op.OpFreeStack? && op.j == i)
  }

  lemma {:induction false} StacksMove(op: Op, s: SysState, st: HeapStep, s': SysState, x: nat)
    requires Applies(op, LayoutOf(s)) && OwnStep(op, s, st, s') && s'.failures == s.failures
    requires x in s'.stacks
    ensures StackAfter(op, s, s', x)
  {
    hide MapEffect, ForkEffect, SpaceOk, NewRange, StackFits, LostLast, Longer, VmaAppeared, WithVmas, Rest, InUse,
      NewOnly, NoLoss, Expand, HeapRuns.Kmalloc, LayoutOf, Applies, StackReady, SameSpaces, SameOthers, SpaceAppeared;
    ApplyIndex(op, s);
    var i :| 0 <= i < |s'.stacks| && s'.stacks[i] == x;
    if op.OpFreeStack? {
      assert s.stacks[if i < op.j then i else i + 1] == x;
    } else if i < |s.stacks| {
      assert s.stacks[i] == x;
    }
  }

  // One operation that misses no table.
  lemma {:induction false} StepReady(op: Op, s: SysState, st: HeapStep, s': SysState)
    requires StateOk(s) && StateOk(s') && OpStep(op, s, st, s') && StacksReady(s) && s'.failures == s.failures
    ensures StacksReady(s')
  {
    hide StateOk, OpStep, OwnStep, SpacesKept, KernelKept, LayoutOf, Applies, StackReady;
    ViewsMatch(s);
    if !Applies(op, LayoutOf(s)) {
      IdlePart(op, s, st, s');
    } else {
      OwnPart(op, s, st, s');
      KernelPart(op, s, st, s');
      KernelStays(op, s, st, s');
      forall x | x in s'.stacks ensures StackReady(s'.mem, s'.kroot, x) {
        StacksMove(op, s, st, s', x);
        if !StackReady(s'.mem, s'.kroot, x) {
          var i :| 0 <= i < |s.stacks| && s.stacks[i] == x && !(op.OpFreeStack? && op.j == i);
          StackInside(s, i);
          if op.OpFreeStack? && op.j < |s.stacks| {
            StackPlaces(s, i, op.j);
          }
          StaysReady(s.mem, s'.mem, s.kroot, FreedStack(op, s), x);
        }
      }
    }
  }

  lemma {:induction false} ReadySoFar(ops: seq<Op>, states: seq<SysState>, steps: seq<HeapStep>, n: nat)
    requires Chain(ops, states, steps) && n <= |steps| && StacksReady(states[0])
    requires states[n].failures == states[0].failures
    ensures StacksReady(states[n])
  {
    hide Chain, StateOk, OpStep, StacksReady, Losses;
    ChainLength(ops, states, steps);
    if n > 0 {
      ChainAt(ops, states, steps, n - 1);
      ViewsMatch(states[n - 1]);
      LossesSoFar(ops, states, steps, n - 1);
      StepLosses(ops[n - 1], states[n - 1], steps[n - 1], states[n]);
      LossesGrow(states[0].stray, states[0].failures, states[n - 1].stray, states[n - 1].failures);
      LossesGrow(states[n - 1].stray, states[n - 1].failures, states[n].stray, states[n].failures);
      ReadySoFar(ops, states, steps, n - 1);
      StepReady(ops[n - 1], states[n - 1], steps[n - 1], states[n]);
    }
  }

  // From boot: in every state without a lost frame.
  lemma {:induction false} ReadyFromBoot(ops: seq<Op>, states: seq<SysState>, steps: seq<HeapStep>)
    requires Chain(ops, states, steps) && (states[0].failures == 0 ==> StacksReady(states[0]))
    ensures forall n :: 0 <= n < |states| && states[n].failures == 0 ==> StacksReady(states[n])
  {
    hide Chain, StateOk, OpStep, StacksReady, Losses;
    ChainLength(ops, states, steps);
    forall n | 0 <= n < |states| && states[n].failures == 0 ensures StacksReady(states[n]) {
      LossesSoFar(ops, states, steps, n);
      LossesGrow(states[0].stray, states[0].failures, states[n].stray, states[n].failures);
      ReadySoFar(ops, states, steps, n);
    }
  }
}
