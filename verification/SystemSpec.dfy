/** What each operation of the memory system does to the system as its callers see it, and what
    follows for every run: which runs leave every holder his own heap block, and which lose no frame.
    The conditions are on the operations, the frames and the heap before a call.
  */
module SystemSpec {
  import opened Common
  import opened Pte
  import Pmm
  import opened PageTable
  import opened Machine
  import opened MapPages
  import opened Heap
  import opened HeapSpec
  import HeapRuns
  import opened HeapUse
  import opened Holders
  import opened Kstack
  import opened Vmm
  import opened Fork
  import opened Teardown
  import opened SystemMem

  datatype Op =
    | OpNew
    | OpMap(i: nat, va: nat, size: nat, flags: nat)
    | OpFork(i: nat)
    | OpFree(i: nat)
    | OpNewStack
    | OpFreeStack(j: nat)
    | OpGrow(n: nat)
    | OpMalloc(bytes: nat)
    | OpKfree(p: nat)

  // The system at one moment: the heap and its holders, the live spaces with their areas and their
  // pointers, the blocks of other callers, the kernel stacks, memory and the account of all frames.
  datatype SysState = SysState(
    blocks: seq<Block>, top: nat, held: Registry,
    views: seq<SpaceView>, ptrs: seq<SpaceBlocks>, others: map<nat, nat>,
    stacks: seq<nat>, broken: seq<nat>, next: nat,
    mem: Memory, kroot: nat, bits: seq<bool>, tab: Tables, pages: Pages, stray: set<nat>, failures: nat, free: nat,
    intact: bool)

  // The page tables are well formed, and what they map are the pages of the listed areas, of the
  // listed stacks, and of the heap up to its top.
  ghost predicate MemoryOk(s: SysState) {
    && SpaceWf(s.mem, s.tab, s.pages, s.kroot) && IsRoot(s.tab, s.kroot) && Held(s.mem, s.tab, s.kroot, s.views)
    && Booted(s.mem, s.kroot, s.next, s.stacks + s.broken) && StacksOk(s.stacks + s.broken, s.next)
    && s.top >= HEAP_BASE && WindowMapped(s.mem, s.kroot, (s.top - HEAP_BASE) / PAGE_SIZE)
  }

  // What every state of every run meets.
  ghost predicate StateOk(s: SysState) {
    && Accounted(s.bits, s.tab, s.pages, s.stray) && s.free == Pmm.CountFree(s.bits)
    && MemoryOk(s)
    && Tiles(s.blocks, HEAP_BASE, s.top)
    && |s.views| == |s.ptrs| && (forall i :: 0 <= i < |s.ptrs| ==> s.ptrs[i].root == s.views[i].root)
    && (s.intact ==> HeapHeld(s.blocks, s.held, s.ptrs, s.others))
  }

  lemma ViewsMatch(s: SysState)
    requires StateOk(s)
    ensures |s.views| == |s.ptrs|
  {
    hide Accounted, MemoryOk, Tiles, HeapHeld;
  }

  // ---- Layouts: what a caller can see of the heap, the spaces and the stacks ----

  datatype SpaceLayout = SpaceLayout(vmas: seq<Vma>, ptrs: seq<nat>)

  datatype Layout = Layout(blocks: seq<Block>, top: nat, spaces: seq<SpaceLayout>, others: map<nat, nat>,
                           stacks: seq<nat>, next: nat)

  function LayoutOf(s: SysState): (lay: Layout) {
    Layout(s.blocks, s.top, seq(|s.views|, i requires 0 <= i < |s.views| => SpaceLayout(s.views[i].vmas, PtrsAt(s, i))),
           s.others, s.stacks, s.next)
  }

  function PtrsAt(s: SysState, i: nat): seq<nat> { if i < |s.ptrs| then s.ptrs[i].ptrs else [] }

  // A range of the user half that shares no page with the listed areas.
  predicate NewRange(vmas: seq<Vma>, va: nat, size: nat) {
    size > 0 ==> va + size <= USER_LIMIT * PAGE_SIZE && ApartFrom(vmas, FirstPage(va), PageSpan(va, size))
  }

  predicate StackFits(next: nat) { next + 1 + STACK_PAGES <= SLOT_PAGES }

  // Operations on a space, stack, range or block that does not exist are skipped.
  predicate Applies(op: Op, lay: Layout) {
    match op
    case OpMap(i, va, size, _) => i < |lay.spaces| && NewRange(lay.spaces[i].vmas, va, size)
    case OpFork(i) => i < |lay.spaces| && StackFits(lay.next)
    case OpFree(i) => i < |lay.spaces|
    case OpNewStack => StackFits(lay.next)
    case OpFreeStack(j) => j < |lay.stacks|
    case OpKfree(p) => p in lay.others
    case _ => true
  }

  function Longer(vmas: seq<Vma>, va: nat, size: nat, flags: nat): seq<Vma> {
    vmas + [Vma(FirstPage(va), FirstPage(va) + PageSpan(va, size), flags)]
  }

  // The pointers of a space with one more VMA; that of the mm_struct stays last.
  function WithPointer(ptrs: seq<nat>, p: nat): seq<nat> {
    if ptrs == [] then [p] else ptrs[..|ptrs| - 1] + [p, ptrs[|ptrs| - 1]]
  }

  // The heap after the mm_struct and the n VMAs of a fork, and their pointers.
  function ForkedHeap(bs: seq<Block>, n: nat): seq<Block> { AllocMany(AllocFirst(bs, SIZEOF_MM), SIZEOF_VMA, n) }

  function ForkedPtrs(bs: seq<Block>, n: nat): seq<nat> {
    ManyPtrs(AllocFirst(bs, SIZEOF_MM), SIZEOF_VMA, n) + [FirstPtr(bs, SIZEOF_MM)]
  }

  // What an operation makes of a layout when it does not run out of anything.
  function Planned(op: Op, lay: Layout): Layout {
    if !Applies(op, lay) then lay
    else
      match op
      case OpNew =>
        lay.(blocks := AllocFirst(lay.blocks, SIZEOF_MM),
             spaces := lay.spaces + [SpaceLayout([], [FirstPtr(lay.blocks, SIZEOF_MM)])])
      case OpMap(i, va, size, flags) =>
        if size == 0 then lay
        else
          var s := lay.spaces[i];
          lay.(blocks := AllocFirst(lay.blocks, SIZEOF_VMA),
               spaces := lay.spaces[i := SpaceLayout(Longer(s.vmas, va, size, flags),
                                                     WithPointer(s.ptrs, FirstPtr(lay.blocks, SIZEOF_VMA)))])
      case OpFork(i) =>
        var vmas := lay.spaces[i].vmas;
        lay.(blocks := ForkedHeap(lay.blocks, |vmas|),
             spaces := lay.spaces + [SpaceLayout(vmas, ForkedPtrs(lay.blocks, |vmas|))],
             stacks := lay.stacks + [lay.next + 1], next := lay.next + 1 + STACK_PAGES)
      case OpFree(i) =>
        lay.(blocks := HeapRuns.FreeEach(lay.blocks, lay.spaces[i].ptrs),
             spaces := lay.spaces[..i] + lay.spaces[i + 1..])
      case OpNewStack => lay.(stacks := lay.stacks + [lay.next + 1], next := lay.next + 1 + STACK_PAGES)
      case OpFreeStack(j) => lay.(stacks := lay.stacks[..j] + lay.stacks[j + 1..])
      case OpGrow(n) => lay.(blocks := Expand(lay.blocks, lay.top, n, AsWritten), top := lay.top + n * PAGE_SIZE)
      case OpMalloc(bytes) =>
        var size := HeapRuns.Align8(bytes);
        lay.(blocks := AllocFirst(lay.blocks, size),
             others := lay.others[FirstPtr(lay.blocks, size) := HeapRuns.Granted(bytes)])
      case OpKfree(p) => lay.(blocks := HeapRuns.FreeListed(lay.blocks, p), others := lay.others - {p})
  }

  // ---- What an operation needs ----

  // Frames that a fork may take: the PML4, the pages and tables of the copy, and the stack.
  function ForkFrames(vmas: seq<Vma>): nat { 1 + CopyBound(vmas) + 4 * STACK_PAGES }

  ghost predicate CopyEnough(bs: seq<Block>, free: nat, vmas: seq<Vma>) {
    Fits(bs, SIZEOF_MM) && RoomFor(AllocFirst(bs, SIZEOF_MM), |vmas|) && free >= 1 + CopyBound(vmas)
  }

  ghost predicate ForkEnough(bs: seq<Block>, free: nat, vmas: seq<Vma>) {
    CopyEnough(bs, free, vmas) && free >= ForkFrames(vmas)
  }

  function Frames(op: Op, lay: Layout): nat {
    if !Applies(op, lay) then 0
    else
      match op
      case OpNew => 1
      case OpMap(_, va, size, _) => if size == 0 then 0 else NeedBound(PageSpan(va, size))
      case OpFork(i) => ForkFrames(lay.spaces[i].vmas)
      case OpNewStack => 4 * STACK_PAGES
      case OpGrow(n) => 4 * n
      case _ => 0
  }

  // The requests find fitting blocks.
  ghost predicate HeapRoom(op: Op, lay: Layout) {
    Applies(op, lay) ==>
      match op
      case OpNew => Fits(lay.blocks, SIZEOF_MM)
      case OpMap(_, _, size, _) => size > 0 ==> Fits(lay.blocks, SIZEOF_VMA)
      case OpFork(i) =>
        Fits(lay.blocks, SIZEOF_MM) && RoomFor(AllocFirst(lay.blocks, SIZEOF_MM), |lay.spaces[i].vmas|)
      case OpMalloc(bytes) => Fits(lay.blocks, HeapRuns.Align8(bytes))
      case _ => true
  }

  ghost predicate Enough(op: Op, lay: Layout, free: nat) { HeapRoom(op, lay) && free >= Frames(op, lay) }

  // All pointers that somebody holds.
  ghost function AllPointers(lay: Layout): set<nat> {
    (set i, p | 0 <= i < |lay.spaces| && p in lay.spaces[i].ptrs :: p) + lay.others.Keys
  }

  // No kfree of the operation finds a block that somebody else holds right behind the one it
  // releases. A caller can check this before the call.
  ghost predicate CarefulCall(op: Op, lay: Layout) {
    Applies(op, lay) ==>
      match op
      case OpFree(i) => Careful(lay.blocks, lay.spaces[i].ptrs, AllPointers(Planned(op, lay)))
      case OpKfree(p) => TakesNone(lay.blocks, p, AllPointers(Planned(op, lay)))
      case _ => true
  }

  // The space whose user half an operation changes; -1 for none.
  function Target(op: Op): int {
    match op
    case OpMap(i, _, _, _) => i
    case OpFree(i) => i
    case _ => -1
  }

  // ---- What each operation does, whatever it runs out of ----

  // One operation as the heap sees it: its blocks after the kmalloc calls, and the kfree calls that
  // follow. linked: a failed mm_map_range has left the released VMA in its list.
  datatype HeapStep = HeapStep(mid: seq<Block>, ps: seq<nat>, linked: bool)

  // Every kfree spares the blocks that are held when the operation is over.
  ghost predicate StepCareful(st: HeapStep, after: SysState) {
    !st.linked && Careful(st.mid, st.ps, after.held.Keys)
  }

  // Every holder's block is in use.
  ghost predicate Honest(s: SysState) {
    AllInUse(s.blocks, Sizes(s.held))
  }

  // For every operation: kmalloc takes nobody's block; the holders keep theirs if and only if the
  // operation is careful; frames are lost to missing tables alone.
  ghost predicate AnyStep(s: SysState, st: HeapStep, s': SysState) {
    && UsedKept(s.blocks, st.mid) && s'.blocks == HeapRuns.FreeEach(st.mid, st.ps)
    && Losses(s.stray, s.failures, s'.stray, s'.failures) && |s'.bits| == |s.bits| && s'.kroot == s.kroot
    && (s'.intact <==> s.intact && StepCareful(st, s'))
    && (s.intact ==> RegistryOk(s'.held, s'.ptrs, s'.others) && (StepCareful(st, s') <==> Honest(s')))
  }

  ghost predicate SameSpaces(s: SysState, s': SysState) { s'.views == s.views && s'.ptrs == s.ptrs }

  ghost predicate SameStacks(s: SysState, s': SysState) {
    s'.stacks == s.stacks && s'.broken == s.broken && s'.next == s.next
  }

  ghost predicate SameOthers(s: SysState, s': SysState) { s'.others == s.others }

  ghost predicate NoLoss(s: SysState, s': SysState) { s'.stray == s.stray && s'.failures == s.failures }

  // No kfree, or only of blocks that nobody had before.
  predicate NewOnly(s: SysState, st: HeapStep) { forall p :: p in st.ps ==> !InUse(s.blocks, p, 0) }

  // One more space with these areas, on a frame that was no table, and in blocks that nobody had.
  ghost predicate SpaceAppeared(s: SysState, s': SysState, vmas: seq<Vma>) {
    && |s'.ptrs| == |s.ptrs| + 1
    && var b := s'.ptrs[|s.ptrs|];
    && s'.ptrs == s.ptrs + [b] && s'.views == s.views + [SpaceView(b.root, vmas)]
    && b.root != 0 && b.root !in s.tab && |b.ptrs| == |vmas| + 1
    && (forall p :: p in b.ptrs ==> !InUse(s.blocks, p, 0))
    && s'.held == WithVmas(WithSpace(s.held, b.root, b.ptrs[|vmas|]), b.root, b.ptrs[..|vmas|])
  }

  // mm_alloc: it fails only when no frame is left.
  ghost predicate NewStep(s: SysState, st: HeapStep, s': SysState) {
    && SameStacks(s, s') && SameOthers(s, s') && NoLoss(s, s') && !st.linked && NewOnly(s, st)
    && ((SameSpaces(s, s') && s'.held == s.held && s'.free == 0)
        || (SpaceAppeared(s, s', []) && st.ps == []
            && SpaceOk(s'.mem, s'.tab, s'.kroot, s'.ptrs[|s.ptrs|].root, [])))
  }

  // One more VMA of space i; its kfree leaves it linked.
  ghost predicate VmaAppeared(i: nat, s: SysState, st: HeapStep, s': SysState) {
    && i < |s.ptrs| == |s'.ptrs| && s.ptrs[i].ptrs != [] && |s'.ptrs[i].ptrs| == |s.ptrs[i].ptrs| + 1
    && var p := s'.ptrs[i].ptrs[|s.ptrs[i].ptrs| - 1];
    && s'.ptrs == s.ptrs[i := SpaceBlocks(s.ptrs[i].root, WithPointer(s.ptrs[i].ptrs, p))]
    && s'.held == WithVmas(s.held, s.ptrs[i].root, [p])
    && NewlyUsed(s.blocks, st.mid, p, SIZEOF_VMA) && (st.ps == [] || st.ps == [p])
  }

  // mm_map_range on space i. A call that fails at a page releases the VMA it has linked.
  ghost predicate MapStep(i: nat, va: nat, size: nat, flags: nat, s: SysState, st: HeapStep, s': SysState) {
    && i < |s.views| == |s.ptrs|
    && var mapped := s.views[i := SpaceView(s.views[i].root, Longer(s.views[i].vmas, va, size, flags))];
    && SameStacks(s, s') && SameOthers(s, s') && (st.linked <==> st.ps != [])
    && ((SameSpaces(s, s') && s'.held == s.held && st.ps == []) || (s'.views == mapped && VmaAppeared(i, s, st, s')))
    && LostLast(s.failures, s.free, s'.failures, s'.free, s'.views == mapped && st.ps == [])
    && (size == 0 ==> SameSpaces(s, s') && NoLoss(s, s') && s'.free == s.free)
    && MapEffect(s'.views == mapped && st.ps == [], s'.failures == s.failures, s.mem, s.tab, s.pages, s'.mem, s'.tab,
                 s'.kroot, s.views[i].root, va, size, flags, s.views[i].vmas,
                 if s'.views == mapped then mapped[i].vmas else s.views[i].vmas)
  }

  // The memory part of sys_fork. Without frames there is no child, and perhaps an unfinished stack.
  ghost predicate ForkStep(i: nat, s: SysState, st: HeapStep, s': SysState) {
    && i < |s.views| && SameOthers(s, s') && !st.linked && NewOnly(s, st)
    && LostLast(s.failures, s.free, s'.failures, s'.free, |s'.ptrs| > |s.ptrs|)
    && ((SameSpaces(s, s') && s'.stacks == s.stacks && (s.intact ==> s'.held == s.held)
         && (SameStacks(s, s') || (s'.broken == s.broken + [s.next + 1] && s'.next == s.next + 1 + STACK_PAGES)))
        || (SpaceAppeared(s, s', s.views[i].vmas) && st.ps == [] && s'.broken == s.broken
            && s'.stacks == s.stacks + [s.next + 1] && s'.next == s.next + 1 + STACK_PAGES
            && (s'.failures == s.failures ==>
                  && StackReady(s'.mem, s'.kroot, s.next + 1)
                  && ForkEffect(s.mem, s.tab, s.pages, s'.mem, s'.tab, s'.kroot, s.views[i].root,
                                s'.ptrs[|s.ptrs|].root, s.views[i].vmas))))
  }

  // mm_free of space i
  ghost predicate FreeStep(i: nat, s: SysState, st: HeapStep, s': SysState) {
    && i < |s.views| == |s.ptrs|
    && SameStacks(s, s') && SameOthers(s, s') && NoLoss(s, s') && s'.free >= s.free && s'.top == s.top
    && st == HeapStep(s.blocks, s.ptrs[i].ptrs, false) && s'.held == Rest(s.held, s.ptrs[i].root)
    && s'.views == s.views[..i] + s.views[i + 1..] && s'.ptrs == s.ptrs[..i] + s.ptrs[i + 1..]
  }

  // An operation on the stacks: the heap and its holders notice nothing.
  ghost predicate OnlyStacks(s: SysState, st: HeapStep, s': SysState) {
    && SameSpaces(s, s') && SameOthers(s, s') && s'.held == s.held && s'.top == s.top
    && st == HeapStep(s.blocks, [], false)
  }

  // kstack_init
  ghost predicate StackStep(s: SysState, st: HeapStep, s': SysState) {
    && OnlyStacks(s, st, s') && s'.next == s.next + 1 + STACK_PAGES
    && LostLast(s.failures, s.free, s'.failures, s'.free, true)
    && ((s'.stacks == s.stacks + [s.next + 1] && s'.broken == s.broken
         && (s'.failures == s.failures ==> StackReady(s'.mem, s'.kroot, s.next + 1)))
        || (s'.stacks == s.stacks && s'.broken == s.broken + [s.next + 1] && s'.free == 0))
  }

  // kstack_free of stack j
  ghost predicate UnstackStep(j: nat, s: SysState, st: HeapStep, s': SysState) {
    && j < |s.stacks| && OnlyStacks(s, st, s') && NoLoss(s, s') && s.free <= s'.free <= s.free + STACK_PAGES
    && s'.stacks == s.stacks[..j] + s.stacks[j + 1..] && s'.broken == s.broken && s'.next == s.next
  }

  // kheap_expand(n): `pages` rounds, fewer only without frames
  ghost predicate GrownBy(pages: nat, s: SysState, st: HeapStep, s': SysState) {
    && s'.blocks == Expand(s.blocks, s.top, pages, AsWritten) && s'.top == s.top + pages * PAGE_SIZE
    && st == HeapStep(s'.blocks, [], false) && SameSpaces(s, s') && SameOthers(s, s') && s'.held == s.held
    && SameStacks(s, s') && NoLoss(s, s')
  }

  ghost predicate GrowStep(n: nat, s: SysState, st: HeapStep, s': SysState) {
    exists pages: nat {:trigger GrownBy(pages, s, st, s')} ::
      GrownBy(pages, s, st, s') && pages <= n && (pages < n ==> s'.free == 0)
  }

  // kmalloc for another caller, when the heap could get `supply` pages
  ghost predicate MallocWith(supply: nat, bytes: nat, s: SysState, st: HeapStep, s': SysState) {
    var o := HeapRuns.Kmalloc(s.blocks, s.top, HeapRuns.Align8(bytes), supply, AsWritten);
    && s'.blocks == o.bs && s'.top == o.top && st == HeapStep(s'.blocks, [], false)
    && SameSpaces(s, s') && SameStacks(s, s') && NoLoss(s, s') && s'.free <= s.free
    && (if o.at.Some? && o.at.value < |o.bs|
        then
          var p, size := o.bs[o.at.value].addr + HEADER_SIZE, HeapRuns.Granted(bytes);
          s'.others == s.others[p := size] && s'.held == WithOther(s.held, p, size)
        else SameOthers(s, s') && s'.held == s.held && s'.free == 0)
  }

  ghost predicate MallocStep(bytes: nat, s: SysState, st: HeapStep, s': SysState) {
    exists supply: nat {:trigger MallocWith(supply, bytes, s, st, s')} :: MallocWith(supply, bytes, s, st, s')
  }

  // kfree(p) by the caller outside the spaces who holds p
  ghost predicate KfreeStep(p: nat, s: SysState, st: HeapStep, s': SysState) {
    && SameSpaces(s, s') && SameStacks(s, s') && NoLoss(s, s') && s'.free == s.free && s'.top == s.top
    && st == HeapStep(s.blocks, [p], false) && s'.others == s.others - {p} && s'.held == s.held - {p}
  }

  ghost predicate OwnStep(op: Op, s: SysState, st: HeapStep, s': SysState) {
    match op
    case OpNew => NewStep(s, st, s')
    case OpMap(i, va, size, flags) => MapStep(i, va, size, flags, s, st, s')
    case OpFork(i) => ForkStep(i, s, st, s')
    case OpFree(i) => FreeStep(i, s, st, s')
    case OpNewStack => StackStep(s, st, s')
    case OpFreeStack(j) => UnstackStep(j, s, st, s')
    case OpGrow(n) => GrowStep(n, s, st, s')
    case OpMalloc(bytes) => MallocStep(bytes, s, st, s')
    case OpKfree(p) => KfreeStep(p, s, st, s')
  }

  // With enough room and frames the operation does what is planned, loses no frame and takes at most
  // those frames.
  ghost predicate AsPlanned(op: Op, s: SysState, st: HeapStep, s': SysState) {
    && |s'.views| == |s'.ptrs| && LayoutOf(s') == Planned(op, LayoutOf(s))
    && NoLoss(s, s') && s'.free + Frames(op, LayoutOf(s)) >= s.free
    && (!op.OpFree? && !op.OpKfree? ==> st.ps == []) && !st.linked
  }

  // The first page of the stack that an operation gives back; -1 for none.
  function FreedStack(op: Op, s: SysState): int {
    if op.OpFreeStack? && op.j < |s.stacks| then s.stacks[op.j] else -1
  }

  // No operation touches the pages of another space, of the heap or of another stack.
  ghost predicate MemoryStep(op: Op, s: SysState, s': SysState) {
    && SpacesKept(s.views, Target(op), s.mem, s'.mem)
    && KernelKept(s.mem, s'.mem, s.kroot, FreedStack(op, s))
  }

  ghost predicate OpStep(op: Op, s: SysState, st: HeapStep, s': SysState) {
    && AnyStep(s, st, s')
    && (if Applies(op, LayoutOf(s)) then OwnStep(op, s, st, s') else s' == s && st == HeapStep(s.blocks, [], false))
    && MemoryStep(op, s, s')
    && (Enough(op, LayoutOf(s), s.free) ==> AsPlanned(op, s, st, s'))
  }

  // ---- What mm_map_range and mm_copy do to the heap and the frames ----

  datatype Stock = Stock(blocks: seq<Block>, top: nat, free: nat, stray: set<nat>, failures: nat)

  ghost function StockOf(k: KernelHeap): Stock
    requires k.Listed()
    reads k, k.nodes, k.m, k.m.pmm
  {
    Stock(k.Blocks(), k.top, k.m.pmm.freePages, k.m.stray, k.m.failures)
  }

  // mm_map_range, from the areas and VMA pointers before to those after
  ghost predicate MapOutcome(done: bool, a: Stock, b: Stock, va: nat, size: nat, flags: nat, vmas0: seq<Vma>,
                             vmas1: seq<Vma>, blocks0: seq<nat>, blocks1: seq<nat>, mid: seq<Block>, ps: seq<nat>) {
    && |blocks0| <= |blocks1| && VmaLinked(blocks0, blocks1, a.blocks, mid, ps)
    && OwnFrees(a.blocks, mid, ps, b.blocks, {})
    && vmas1 == (if blocks1 == blocks0 then vmas0 else Longer(vmas0, va, size, flags))
    && (if done then blocks1 != blocks0 && ps == [] else blocks1 == blocks0 || ps != [])
    && LostLast(a.failures, a.free, b.failures, b.free, done)
    && (size == 0 ==> b == a && blocks1 == blocks0)
    && (size > 0 && Fits(a.blocks, SIZEOF_VMA) && a.free >= NeedBound(PageSpan(va, size)) ==>
          && done && b.stray == a.stray && b.top == a.top && b.free + NeedBound(PageSpan(va, size)) >= a.free
          && b.blocks == AllocFirst(a.blocks, SIZEOF_VMA)
          && blocks1 == blocks0 + [FirstPtr(a.blocks, SIZEOF_VMA)])
  }

  // mm_copy of these areas into a space whose VMAs then lie at `blocks`
  ghost predicate CopyOutcome(done: bool, a: Stock, b: Stock, vmas: seq<Vma>, blocks: seq<nat>, mid: seq<Block>,
                              ps: seq<nat>) {
    && (done ==> ps == [] && ChildBlocks(a.blocks, b.blocks, blocks, |vmas|) && b.free <= a.free)
    && LostLast(a.failures, a.free, b.failures, b.free, done)
    && (RoomFor(a.blocks, |vmas|) && a.free >= CopyBound(vmas) ==>
          && done && b.stray == a.stray && b.top == a.top && b.free + CopyBound(vmas) >= a.free
          && b.blocks == AllocMany(a.blocks, SIZEOF_VMA, |vmas|) && blocks == ManyPtrs(a.blocks, SIZEOF_VMA, |vmas|))
  }

  // mm_alloc and mm_copy as planned, with at most so many frames
  ghost predicate CopyPlanned(s: SysState, vmas: seq<Vma>, frames: nat, b: Stock, ptrs: seq<nat>) {
    && b.stray == s.stray && b.top == s.top && b.free + frames >= s.free
    && b.blocks == ForkedHeap(s.blocks, |vmas|) && ptrs == ForkedPtrs(s.blocks, |vmas|)
  }

  lemma {:induction false} CopyIsPlanned(done: bool, s: SysState, a: Stock, b: Stock, vmas: seq<Vma>, blocks: seq<nat>,
                                         block: nat, mid: seq<Block>, ps: seq<nat>)
    requires CopyEnough(s.blocks, s.free, vmas) && CopyOutcome(done, a, b, vmas, blocks, mid, ps)
    requires a.free == s.free - 1 && a.stray == s.stray && a.top == s.top && a.blocks == AllocFirst(s.blocks, SIZEOF_MM)
    requires block == FirstPtr(s.blocks, SIZEOF_MM)
    ensures done && CopyPlanned(s, vmas, 1 + CopyBound(vmas), b, blocks + [block])
  {
    hide AllocFirst, AllocMany, ManyPtrs, FirstPtr, RoomFor, CopyBound, ChildBlocks, Fits;
  }

  lemma StackAsPlanned(s: SysState, vmas: seq<Vma>, a: Stock, b: Stock, ptrs: seq<nat>)
    requires CopyPlanned(s, vmas, 1 + CopyBound(vmas), a, ptrs) && b.blocks == a.blocks && b.top == a.top
    requires b.stray == a.stray && b.free + 4 * STACK_PAGES >= a.free
    ensures CopyPlanned(s, vmas, ForkFrames(vmas), b, ptrs)
  {
    hide ForkedHeap, ForkedPtrs, CopyBound;
  }

  lemma CopyBlocks(a: Stock, b: Stock, vmas: seq<Vma>, blocks: seq<nat>, mid: seq<Block>, ps: seq<nat>)
    requires CopyOutcome(true, a, b, vmas, blocks, mid, ps)
    ensures ChildBlocks(a.blocks, b.blocks, blocks, |vmas|)
  {
    hide ChildBlocks, RoomFor, CopyBound;
  }

  lemma {:induction false} CopyLost(done: bool, n: nat, free: nat, a: Stock, b: Stock, vmas: seq<Vma>, blocks: seq<nat>,
                                    mid: seq<Block>, ps: seq<nat>)
    requires CopyOutcome(done, a, b, vmas, blocks, mid, ps) && a.failures == n && a.free <= free
    ensures LostLast(n, free, b.failures, b.free, done) && (done ==> b.free <= free && |blocks| == |vmas|)
  {
    hide RoomFor, CopyBound;
  }

  // ---- Making an OpStep ----

  // The registry is right after the operation, also after the first careless one.
  lemma {:induction false} RegistryAfter(op: Op, s: SysState, st: HeapStep, s': SysState)
    requires StateOk(s) && StateOk(s') && s.intact && Applies(op, LayoutOf(s)) && OwnStep(op, s, st, s')
    requires UsedKept(s.blocks, st.mid) && (s'.intact <==> StepCareful(st, s'))
    ensures RegistryOk(s'.held, s'.ptrs, s'.others)
  {
    hide RegistryOk, Careful, InUse, UsedKept, Rest, NewRange, WithVmas, Accounted, Tiles, LostLast, AllInUse,
      HeapRuns.FreeEach, Expand, HeapRuns.Kmalloc;
    CarefulNone(st.mid, s'.held.Keys);
    if !s'.intact {
      match op
      case OpNew =>
      case OpMap(i, _, _, _) => LinkedIsRegistered(i, s, st, s');
      case OpFork(_) =>
      case OpFree(i) => SpaceDropped(s.held, s.ptrs, s.others, i);
      case OpKfree(p) => OtherDropped(s.held, s.ptrs, s.others, p);
      case _ =>
    }
  }

  lemma {:induction false} LinkedIsRegistered(i: nat, s: SysState, st: HeapStep, s': SysState)
    requires HeapHeld(s.blocks, s.held, s.ptrs, s.others) && i < |s.ptrs| && UsedKept(s.blocks, st.mid)
    requires VmaAppeared(i, s, st, s') && SameOthers(s, s')
    ensures RegistryOk(s'.held, s'.ptrs, s'.others)
  {
    hide RegistryOk, InUse, UsedKept, WithVmas, AllInUse;
    var ptrs := s.ptrs[i].ptrs;
    var n := |ptrs| - 1;
    var p := s'.ptrs[i].ptrs[n];
    assert ptrs == ptrs[..n] + [ptrs[n]] && WithPointer(ptrs, p) == ptrs[..n] + [p] + [ptrs[n]];
    VmasAdded(s.blocks, st.mid, s.held, s.ptrs, s.others, i, ptrs[..n], [p], ptrs[n]);
  }

  lemma {:induction false} MakeStep(op: Op, s: SysState, st: HeapStep, s': SysState)
    requires StateOk(s) && StateOk(s') && Applies(op, LayoutOf(s)) && OwnStep(op, s, st, s')
    requires UsedKept(s.blocks, st.mid) && s'.blocks == HeapRuns.FreeEach(st.mid, st.ps)
    requires Losses(s.stray, s.failures, s'.stray, s'.failures) && |s'.bits| == |s.bits| && s'.kroot == s.kroot
    requires s'.intact <==> s.intact && StepCareful(st, s')
    requires s.intact ==> (s'.intact <==> Honest(s'))
    requires Enough(op, LayoutOf(s), s.free) ==> AsPlanned(op, s, st, s')
    requires MemoryStep(op, s, s')
    ensures OpStep(op, s, st, s')
  {
    hide MemoryStep, StateOk, OwnStep, AsPlanned, Enough, Applies, StepCareful, Honest, RegistryOk, UsedKept, Losses,
      LayoutOf, HeapRuns.FreeEach;
    if s.intact {
      RegistryAfter(op, s, st, s');
    }
  }

  lemma MemorySame(op: Op, s: SysState, s': SysState)
    requires StateOk(s) && s'.mem == s.mem
    ensures MemoryStep(op, s, s')
  {
    hide Accounted, Tiles, HeapHeld, TableWf, PagesWf, Held, Booted, StacksOk, WindowMapped, SpacesKept, KernelKept,
      Target, FreedStack;
    SpacesRefl(s.views, Target(op), s.mem, s.tab, s.pages, s.kroot);
    KernelRefl(s.mem, s.tab, s.pages, s.kroot, FreedStack(op, s));
  }

  lemma MemoryOthers(op: Op, s: SysState, s': SysState)
    requires OthersKept(s.kroot, s.views, Target(op), s.mem, s'.mem) && !op.OpFreeStack?
    ensures MemoryStep(op, s, s')
  {
    hide SpacesKept, KernelKept, Target;
  }

  lemma {:induction false} IdleStep(op: Op, s: SysState)
    requires StateOk(s) && !Applies(op, LayoutOf(s))
    ensures OpStep(op, s, HeapStep(s.blocks, [], false), s)
  {
    hide Applies, Accounted, Tiles, RegistryOk, AllInUse, HeapRoom, MemoryOk, MemoryStep;
    FreeEachOne(s.blocks, 0);
    UsedRefl(s.blocks);
    LossesRefl(s.stray, s.failures);
    MemorySame(op, s, s);
    CarefulNone(s.blocks, s.held.Keys);
  }

  // ---- Plans kept: the layouts are compared part by part ----

  lemma LayoutsEqual(s: SysState, lay: Layout)
    requires |s.views| == |s.ptrs| == |lay.spaces| && s.blocks == lay.blocks && s.top == lay.top
    requires s.others == lay.others && s.stacks == lay.stacks && s.next == lay.next
    requires forall i :: 0 <= i < |s.views| ==> lay.spaces[i] == SpaceLayout(s.views[i].vmas, s.ptrs[i].ptrs)
    ensures LayoutOf(s) == lay
  {
  }

  lemma NewPlanned(s: SysState, st: HeapStep, s': SysState)
    requires |s.views| == |s.ptrs| && SpaceAppeared(s, s', []) && SameStacks(s, s') && SameOthers(s, s')
    requires NoLoss(s, s') && s'.free + 1 >= s.free && s'.top == s.top && st.ps == [] && !st.linked
    requires s'.blocks == AllocFirst(s.blocks, SIZEOF_MM)
    requires s'.ptrs[|s.ptrs|].ptrs == [FirstPtr(s.blocks, SIZEOF_MM)]
    ensures AsPlanned(OpNew, s, st, s')
  {
    hide AllocFirst, FirstPtr, InUse, WithVmas;
    LayoutsEqual(s', Planned(OpNew, LayoutOf(s)));
  }

  lemma MapPlanned(i: nat, va: nat, size: nat, flags: nat, s: SysState, st: HeapStep, s': SysState)
    requires |s.views| == |s.ptrs| && size > 0 && Applies(OpMap(i, va, size, flags), LayoutOf(s))
    requires VmaAppeared(i, s, st, s') && SameStacks(s, s') && SameOthers(s, s') && NoLoss(s, s')
    requires s'.views == s.views[i := SpaceView(s.views[i].root, Longer(s.views[i].vmas, va, size, flags))]
    requires s'.free + NeedBound(PageSpan(va, size)) >= s.free && s'.top == s.top && st.ps == [] && !st.linked
    requires s'.blocks == AllocFirst(s.blocks, SIZEOF_VMA)
    requires s'.ptrs[i].ptrs[|s.ptrs[i].ptrs| - 1] == FirstPtr(s.blocks, SIZEOF_VMA)
    ensures AsPlanned(OpMap(i, va, size, flags), s, st, s')
  {
    hide AllocFirst, FirstPtr, InUse, WithVmas, Longer, WithPointer, NewRange, NeedBound, PageSpan;
    LayoutsEqual(s', Planned(OpMap(i, va, size, flags), LayoutOf(s)));
  }

  lemma MapNothing(i: nat, va: nat, flags: nat, s: SysState, st: HeapStep, s': SysState)
    requires |s.views| == |s.ptrs| && SameSpaces(s, s') && SameStacks(s, s') && SameOthers(s, s') && NoLoss(s, s')
    requires s'.free == s.free && s'.top == s.top && s'.blocks == s.blocks && st.ps == [] && !st.linked
    ensures AsPlanned(OpMap(i, va, 0, flags), s, st, s')
  {
    LayoutsEqual(s', LayoutOf(s));
  }

  lemma ForkPlanned(i: nat, s: SysState, st: HeapStep, s': SysState)
    requires |s.views| == |s.ptrs| && Applies(OpFork(i), LayoutOf(s)) && SpaceAppeared(s, s', s.views[i].vmas)
    requires s'.stacks == s.stacks + [s.next + 1] && s'.next == s.next + 1 + STACK_PAGES && SameOthers(s, s')
    requires NoLoss(s, s') && s'.free + ForkFrames(s.views[i].vmas) >= s.free && s'.top == s.top
    requires st.ps == [] && !st.linked
    requires s'.blocks == ForkedHeap(s.blocks, |s.views[i].vmas|)
    requires s'.ptrs[|s.ptrs|].ptrs == ForkedPtrs(s.blocks, |s.views[i].vmas|)
    ensures AsPlanned(OpFork(i), s, st, s')
  {
    hide ForkedHeap, ForkedPtrs, InUse, WithVmas, ForkFrames;
    LayoutsEqual(s', Planned(OpFork(i), LayoutOf(s)));
  }

  lemma FreePlanned(i: nat, s: SysState, st: HeapStep, s': SysState)
    requires |s.views| == |s.ptrs| && i < |s.views| && FreeStep(i, s, st, s')
    requires s'.blocks == HeapRuns.FreeEach(s.blocks, s.ptrs[i].ptrs)
    ensures AsPlanned(OpFree(i), s, st, s')
  {
    hide HeapRuns.FreeEach, Rest;
    LayoutsEqual(s', Planned(OpFree(i), LayoutOf(s)));
  }

  lemma StackPlanned(s: SysState, st: HeapStep, s': SysState)
    requires |s.views| == |s.ptrs| && StackFits(s.next) && OnlyStacks(s, st, s') && s'.blocks == s.blocks
    requires s'.stacks == s.stacks + [s.next + 1] && s'.next == s.next + 1 + STACK_PAGES
    requires NoLoss(s, s') && s'.free + 4 * STACK_PAGES >= s.free
    ensures AsPlanned(OpNewStack, s, st, s')
  {
    LayoutsEqual(s', Planned(OpNewStack, LayoutOf(s)));
  }

  lemma UnstackPlanned(j: nat, s: SysState, st: HeapStep, s': SysState)
    requires |s.views| == |s.ptrs| && j < |s.stacks| && UnstackStep(j, s, st, s') && s'.blocks == s.blocks
    ensures AsPlanned(OpFreeStack(j), s, st, s')
  {
    LayoutsEqual(s', Planned(OpFreeStack(j), LayoutOf(s)));
  }

  lemma GrowPlanned(n: nat, s: SysState, st: HeapStep, s': SysState)
    requires |s.views| == |s.ptrs| && GrownBy(n, s, st, s') && s'.free + 4 * n >= s.free
    ensures AsPlanned(OpGrow(n), s, st, s')
  {
    hide Expand;
    LayoutsEqual(s', Planned(OpGrow(n), LayoutOf(s)));
  }

  lemma MallocPlanned(bytes: nat, s: SysState, st: HeapStep, s': SysState)
    requires |s.views| == |s.ptrs| && SameSpaces(s, s') && SameStacks(s, s') && NoLoss(s, s')
    requires s'.free == s.free && s'.top == s.top && st.ps == [] && !st.linked
    requires s'.blocks == AllocFirst(s.blocks, HeapRuns.Align8(bytes))
    requires s'.others == s.others[FirstPtr(s.blocks, HeapRuns.Align8(bytes)) := HeapRuns.Granted(bytes)]
    ensures AsPlanned(OpMalloc(bytes), s, st, s')
  {
    hide AllocFirst, FirstPtr, HeapRuns.Align8, HeapRuns.Granted;
    LayoutsEqual(s', Planned(OpMalloc(bytes), LayoutOf(s)));
  }

  lemma KfreePlanned(p: nat, s: SysState, st: HeapStep, s': SysState)
    requires |s.views| == |s.ptrs| && p in s.others && KfreeStep(p, s, st, s')
    requires s'.blocks == HeapRuns.FreeListed(s.blocks, p)
    ensures AsPlanned(OpKfree(p), s, st, s')
  {
    hide HeapRuns.FreeListed;
    LayoutsEqual(s', Planned(OpKfree(p), LayoutOf(s)));
  }

  // ---- One operation after the other ----

  // The heap and the frames of a state.
  function Stocks(s: SysState): Stock { Stock(s.blocks, s.top, s.free, s.stray, s.failures) }

  // What every operation but a halt has to show.
  ghost predicate Kept(s: SysState, s': SysState) {
    && StateOk(s) && StateOk(s') && |s.views| == |s.ptrs| && |s'.bits| == |s.bits| && s'.kroot == s.kroot
    && Losses(s.stray, s.failures, s'.stray, s'.failures)
    && (s'.intact ==> s.intact) && (s'.intact ==> Honest(s'))
  }

  // The same for an operation without kfree.
  ghost predicate KeptAll(s: SysState, s': SysState) {
    Kept(s, s') && UsedKept(s.blocks, s'.blocks) && s'.intact == s.intact
  }

  lemma {:induction false} NoFreeStep(op: Op, s: SysState, s': SysState)
    requires KeptAll(s, s') && Applies(op, LayoutOf(s)) && OwnStep(op, s, HeapStep(s'.blocks, [], false), s')
    requires MemoryStep(op, s, s')
    requires Enough(op, LayoutOf(s), s.free) ==> AsPlanned(op, s, HeapStep(s'.blocks, [], false), s')
    ensures OpStep(op, s, HeapStep(s'.blocks, [], false), s')
  {
    hide StateOk, OwnStep, AsPlanned, Enough, Applies, Honest, UsedKept, Losses, Careful, LayoutOf, MemoryStep;
    FreeEachOne(s'.blocks, 0);
    CarefulNone(s'.blocks, s'.held.Keys);
    MakeStep(op, s, HeapStep(s'.blocks, [], false), s');
  }

  lemma {:induction false} NewDone(s: SysState, s': SysState, root: nat, p: nat)
    requires KeptAll(s, s') && SameStacks(s, s') && SameOthers(s, s') && s'.stray == s.stray
    requires s'.views == s.views + [SpaceView(root, [])] && s'.ptrs == s.ptrs + [SpaceBlocks(root, [p])]
    requires s'.held == WithSpace(s.held, root, p) && root != 0 && root !in s.tab && !InUse(s.blocks, p, 0)
    requires OthersKept(s.kroot, s.views, -1, s.mem, s'.mem) && SpaceOk(s'.mem, s'.tab, s'.kroot, root, [])
    requires Fits(s.blocks, SIZEOF_MM) && s.free >= 1 ==>
               && s'.free == s.free - 1 && s'.top == s.top && s'.blocks == AllocFirst(s.blocks, SIZEOF_MM)
               && p == FirstPtr(s.blocks, SIZEOF_MM)
    ensures OpStep(OpNew, s, HeapStep(s'.blocks, [], false), s')
  {
    hide StateOk, Honest, UsedKept, Losses, AllocFirst, FirstPtr, Fits, InUse, WithVmas, Planned, OpStep;
    NoVmas(s'.held, root);
    LossesNone(s.stray, s.failures, s'.stray, s'.failures);
    var st := HeapStep(s'.blocks, [], false);
    assert SpaceAppeared(s, s', []);
    if Fits(s.blocks, SIZEOF_MM) && s.free >= 1 {
      NewPlanned(s, st, s');
    }
    MemoryOthers(OpNew, s, s');
    NoFreeStep(OpNew, s, s');
  }

  lemma {:induction false} NewFailed(s: SysState, mid: seq<Block>, ps: seq<nat>, s': SysState)
    requires Kept(s, s') && SameStacks(s, s') && SameOthers(s, s') && s'.stray == s.stray
    requires SameSpaces(s, s') && s'.held == s.held && s'.free == 0 && OwnFrees(s.blocks, mid, ps, s'.blocks, {})
    requires OthersKept(s.kroot, s.views, -1, s.mem, s'.mem)
    requires s'.intact == (s.intact && Careful(mid, ps, s'.held.Keys))
    requires s.intact ==> (s'.intact <==> Honest(s'))
    requires !(Fits(s.blocks, SIZEOF_MM) && s.free >= 1)
    ensures OpStep(OpNew, s, HeapStep(mid, ps, false), s')
  {
    hide StateOk, Honest, UsedKept, Losses, Fits, InUse, Planned, Careful, HeapRuns.FreeEach, OpStep, OwnFrees;
    OwnFreesParts(s.blocks, mid, ps, s'.blocks);
    LossesNone(s.stray, s.failures, s'.stray, s'.failures);
    MemoryOthers(OpNew, s, s');
    MakeStep(OpNew, s, HeapStep(mid, ps, false), s');
  }

  lemma {:induction false} MapStepped(i: nat, va: nat, size: nat, flags: nat, done: bool, s: SysState, vmas: seq<Vma>,
                                      before: seq<nat>, after: seq<nat>, block: nat, mid: seq<Block>, ps: seq<nat>,
                                      s': SysState)
    requires Kept(s, s') && SameStacks(s, s') && SameOthers(s, s') && i < |s.views| && |s.views| == |s.ptrs|
    requires Applies(OpMap(i, va, size, flags), LayoutOf(s)) && s.ptrs[i].ptrs == before + [block]
    requires MapOutcome(done, Stocks(s), Stocks(s'), va, size, flags, s.views[i].vmas, vmas, before, after, mid, ps)
    requires s'.views == s.views[i := SpaceView(s.views[i].root, vmas)]
    requires s'.ptrs == s.ptrs[i := SpaceBlocks(s.ptrs[i].root, after + [block])]
    requires s'.held == WithVmas(s.held, s.ptrs[i].root, after[|before|..])
    requires s'.intact == (s.intact && ps == []) && (s.intact ==> (s'.intact <==> Honest(s')))
    requires OthersKept(s.kroot, s.views, i, s.mem, s'.mem)
    requires MapEffect(done, s'.failures == s.failures, s.mem, s.tab, s.pages, s'.mem, s'.tab, s'.kroot,
                       s.views[i].root, va, size, flags, s.views[i].vmas, vmas)
    ensures OpStep(OpMap(i, va, size, flags), s, HeapStep(mid, ps, ps != []), s')
  {
    hide StateOk, Honest, UsedKept, Losses, AllocFirst, FirstPtr, Fits, InUse, WithVmas, Planned, OpStep, NewRange,
      NeedBound, PageSpan, FirstPage, Careful, HeapRuns.FreeEach, OwnFrees;
    var op, st := OpMap(i, va, size, flags), HeapStep(mid, ps, ps != []);
    OwnFreesParts(s.blocks, mid, ps, s'.blocks);
    LossesNone(s.stray, s.failures, s'.stray, s'.failures);
    CarefulNone(mid, s'.held.Keys);
    if after == before {
      NoVmas(s.held, s.ptrs[i].root);
      assert s'.ptrs == s.ptrs && s'.views == s.views;
    } else {
      OneMore(before, after, block);
      assert VmaAppeared(i, s, st, s');
    }
    if size == 0 {
      MapNothing(i, va, flags, s, st, s');
    } else if Enough(op, LayoutOf(s), s.free) {
      MapPlanned(i, va, size, flags, s, st, s');
    }
    MemoryOthers(op, s, s');
    MakeStep(op, s, st, s');
  }

  lemma OneMore(before: seq<nat>, after: seq<nat>, block: nat)
    requires |after| == |before| + 1 && after[..|before|] == before
    ensures after == before + [after[|before|]] && after[|before|..] == [after[|before|]]
    ensures after + [block] == WithPointer(before + [block], after[|before|])
    ensures (after + [block])[|before|] == after[|before|]
  {
  }

  lemma {:induction false} FreeStepped(i: nat, s: SysState, s': SysState)
    requires Kept(s, s') && |s.views| == |s.ptrs| && i < |s.views|
    requires FreeStep(i, s, HeapStep(s.blocks, s.ptrs[i].ptrs, false), s')
    requires s'.blocks == HeapRuns.FreeEach(s.blocks, s.ptrs[i].ptrs) && s'.mem == s.mem
    requires s'.intact == (s.intact && Careful(s.blocks, s.ptrs[i].ptrs, s'.held.Keys))
    requires s.intact ==> (s'.intact <==> Honest(s'))
    ensures OpStep(OpFree(i), s, HeapStep(s.blocks, s.ptrs[i].ptrs, false), s')
  {
    hide StateOk, Honest, Losses, Careful, HeapRuns.FreeEach, Rest, UsedKept, AsPlanned, Enough;
    UsedRefl(s.blocks);
    MemorySame(OpFree(i), s, s');
    FreePlanned(i, s, HeapStep(s.blocks, s.ptrs[i].ptrs, false), s');
    MakeStep(OpFree(i), s, HeapStep(s.blocks, s.ptrs[i].ptrs, false), s');
  }

  lemma {:induction false} StackStepped(s: SysState, s': SysState)
    requires Kept(s, s') && |s.views| == |s.ptrs| && s'.intact == s.intact && StackFits(s.next)
    requires StackStep(s, HeapStep(s.blocks, [], false), s') && s'.blocks == s.blocks
    requires OthersKept(s.kroot, s.views, -1, s.mem, s'.mem)
    requires s.free >= 4 * STACK_PAGES ==>
              s'.stray == s.stray && s'.stacks == s.stacks + [s.next + 1] && s'.free + 4 * STACK_PAGES >= s.free
    ensures OpStep(OpNewStack, s, HeapStep(s.blocks, [], false), s')
  {
    hide StateOk, Honest, Losses, UsedKept, AsPlanned, OpStep;
    UsedRefl(s.blocks);
    LossesNone(s.stray, s.failures, s'.stray, s'.failures);
    if s.free >= 4 * STACK_PAGES {
      StackPlanned(s, HeapStep(s.blocks, [], false), s');
    }
    MemoryOthers(OpNewStack, s, s');
    NoFreeStep(OpNewStack, s, s');
  }

  lemma {:induction false} UnstackStepped(j: nat, s: SysState, s': SysState)
    requires Kept(s, s') && |s.views| == |s.ptrs| && s'.intact == s.intact && j < |s.stacks|
    requires UnstackStep(j, s, HeapStep(s.blocks, [], false), s') && s'.blocks == s.blocks
    requires SpacesKept(s.views, -1, s.mem, s'.mem) && KernelKept(s.mem, s'.mem, s.kroot, s.stacks[j])
    ensures OpStep(OpFreeStack(j), s, HeapStep(s.blocks, [], false), s')
  {
    hide StateOk, Honest, Losses, UsedKept, AsPlanned, OpStep;
    UsedRefl(s.blocks);
    UnstackPlanned(j, s, HeapStep(s.blocks, [], false), s');
    NoFreeStep(OpFreeStack(j), s, s');
  }

  lemma {:induction false} GrowStepped(n: nat, pages: nat, s: SysState, s': SysState)
    requires KeptAll(s, s') && |s.views| == |s.ptrs| && GrownBy(pages, s, HeapStep(s'.blocks, [], false), s')
    requires pages <= n && (pages < n ==> s'.free == 0) && OthersKept(s.kroot, s.views, -1, s.mem, s'.mem)
    requires s.free >= 4 * n ==> pages == n && s'.free + 4 * n >= s.free
    ensures OpStep(OpGrow(n), s, HeapStep(s'.blocks, [], false), s')
  {
    hide StateOk, Honest, Losses, UsedKept, AsPlanned, OpStep, GrownBy;
    if s.free >= 4 * n {
      GrowPlanned(n, s, HeapStep(s'.blocks, [], false), s');
    }
    MemoryOthers(OpGrow(n), s, s');
    NoFreeStep(OpGrow(n), s, s');
  }

  lemma {:induction false} MallocStepped(bytes: nat, supply: nat, s: SysState, s': SysState)
    requires KeptAll(s, s') && |s.views| == |s.ptrs| && OthersKept(s.kroot, s.views, -1, s.mem, s'.mem)
    requires MallocWith(supply, bytes, s, HeapStep(s'.blocks, [], false), s')
    requires Fits(s.blocks, HeapRuns.Align8(bytes)) ==>
              && s'.free == s.free && s'.top == s.top && s'.blocks == AllocFirst(s.blocks, HeapRuns.Align8(bytes))
              && s'.others == s.others[FirstPtr(s.blocks, HeapRuns.Align8(bytes)) := HeapRuns.Granted(bytes)]
    ensures OpStep(OpMalloc(bytes), s, HeapStep(s'.blocks, [], false), s')
  {
    hide StateOk, Honest, Losses, UsedKept, AsPlanned, OpStep, HeapRuns.Kmalloc, HeapRuns.Align8, HeapRuns.Granted,
      AllocFirst, FirstPtr;
    if Fits(s.blocks, HeapRuns.Align8(bytes)) {
      MallocPlanned(bytes, s, HeapStep(s'.blocks, [], false), s');
    }
    MemoryOthers(OpMalloc(bytes), s, s');
    NoFreeStep(OpMalloc(bytes), s, s');
  }

  lemma {:induction false} KfreeStepped(p: nat, s: SysState, s': SysState)
    requires Kept(s, s') && |s.views| == |s.ptrs| && p in s.others
    requires KfreeStep(p, s, HeapStep(s.blocks, [p], false), s')
    requires s'.blocks == HeapRuns.FreeListed(s.blocks, p) && s'.mem == s.mem
    requires s'.intact == (s.intact && TakesNone(s.blocks, p, s'.held.Keys))
    requires s.intact ==> (s'.intact <==> Honest(s'))
    ensures OpStep(OpKfree(p), s, HeapStep(s.blocks, [p], false), s')
  {
    hide StateOk, Honest, Losses, Careful, HeapRuns.FreeEach, HeapRuns.FreeListed, UsedKept, AsPlanned, Enough,
      TakesNone;
    UsedRefl(s.blocks);
    FreeEachOne(s.blocks, p);
    CarefulOne(s.blocks, p, s'.held.Keys);
    MemorySame(OpKfree(p), s, s');
    KfreePlanned(p, s, HeapStep(s.blocks, [p], false), s');
    MakeStep(OpKfree(p), s, HeapStep(s.blocks, [p], false), s');
  }

  lemma {:induction false} ForkDone(i: nat, s: SysState, s': SysState)
    requires KeptAll(s, s') && Applies(OpFork(i), LayoutOf(s)) && SpaceAppeared(s, s', s.views[i].vmas)
    requires SameOthers(s, s') && s'.broken == s.broken && s'.stacks == s.stacks + [s.next + 1]
    requires s'.next == s.next + 1 + STACK_PAGES && LostLast(s.failures, s.free, s'.failures, s'.free, true)
    requires OthersKept(s.kroot, s.views, -1, s.mem, s'.mem)
    requires s'.failures == s.failures ==>
               && StackReady(s'.mem, s'.kroot, s.next + 1)
               && ForkEffect(s.mem, s.tab, s.pages, s'.mem, s'.tab, s'.kroot, s.views[i].root, s'.ptrs[|s.ptrs|].root,
                             s.views[i].vmas)
    requires ForkEnough(s.blocks, s.free, s.views[i].vmas) ==>
              && s'.stray == s.stray && s'.top == s.top && s'.free + ForkFrames(s.views[i].vmas) >= s.free
              && s'.blocks == ForkedHeap(s.blocks, |s.views[i].vmas|)
              && s'.ptrs[|s.ptrs|].ptrs == ForkedPtrs(s.blocks, |s.views[i].vmas|)
    ensures OpStep(OpFork(i), s, HeapStep(s'.blocks, [], false), s')
  {
    hide StateOk, Honest, Losses, UsedKept, AsPlanned, OpStep, SpaceAppeared, ForkedHeap, ForkedPtrs, ForkFrames,
      Fits, RoomFor;
    LossesNone(s.stray, s.failures, s'.stray, s'.failures);
    ForkNeeds(i, s);
    assert |s'.ptrs| > |s.ptrs| by {
      OneSpaceMore(s, s', s.views[i].vmas);
    }
    if ForkEnough(s.blocks, s.free, s.views[i].vmas) {
      ForkPlanned(i, s, HeapStep(s'.blocks, [], false), s');
    }
    MemoryOthers(OpFork(i), s, s');
    NoFreeStep(OpFork(i), s, s');
  }

  lemma ForkNeeds(i: nat, s: SysState)
    requires |s.views| == |s.ptrs|
    ensures Enough(OpFork(i), LayoutOf(s), s.free) && i < |s.views| && StackFits(s.next) ==>
              ForkEnough(s.blocks, s.free, s.views[i].vmas)
    ensures Applies(OpFork(i), LayoutOf(s)) <==> i < |s.views| && StackFits(s.next)
  {
    hide Fits, RoomFor, AllocFirst, CopyBound;
  }

  lemma OneSpaceMore(s: SysState, s': SysState, vmas: seq<Vma>)
    requires SpaceAppeared(s, s', vmas)
    ensures |s'.ptrs| == |s.ptrs| + 1
  {
  }

  lemma {:induction false} ForkFailed(i: nat, s: SysState, mid: seq<Block>, ps: seq<nat>, s': SysState)
    requires Kept(s, s') && Applies(OpFork(i), LayoutOf(s)) && SameOthers(s, s') && SameSpaces(s, s')
    requires s'.stacks == s.stacks && (s.intact ==> s'.held == s.held)
    requires SameStacks(s, s') || (s'.broken == s.broken + [s.next + 1] && s'.next == s.next + 1 + STACK_PAGES)
    requires LostLast(s.failures, s.free, s'.failures, s'.free, false) && OwnFrees(s.blocks, mid, ps, s'.blocks, {})
    requires !s.intact ==> !s'.intact
    requires s.intact ==> (s'.intact <==> Careful(mid, ps, s'.held.Keys)) && (s'.intact <==> Honest(s'))
    requires !ForkEnough(s.blocks, s.free, s.views[i].vmas) && OthersKept(s.kroot, s.views, -1, s.mem, s'.mem)
    ensures OpStep(OpFork(i), s, HeapStep(mid, ps, false), s')
  {
    hide StateOk, Honest, Losses, UsedKept, AsPlanned, OpStep, ForkFrames, Fits, RoomFor, Careful, OwnFrees,
      HeapRuns.FreeEach, NewRange;
    OwnFreesParts(s.blocks, mid, ps, s'.blocks);
    ForkNeeds(i, s);
    MemoryOthers(OpFork(i), s, s');
    MakeStep(OpFork(i), s, HeapStep(mid, ps, false), s');
  }
}
