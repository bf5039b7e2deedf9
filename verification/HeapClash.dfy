/** Two live address spaces with one mm_struct: a run of five calls after boot in which kfree as
    written (kernel/src/mm/pmm.c:238-245) takes the mm_struct of a live space.
  */
module HeapClash {
  import opened Common
  import opened Pte
  import Pmm
  import opened PageTable
  import opened Machine
  import opened HeapSpec
  import HeapRuns
  import opened HeapUse
  import opened Holders
  import opened Vmm
  import opened SystemMem
  import opened SystemSpec
  import opened SystemRuns
  import opened System

  const FIRST: nat := HEAP_BASE + HEADER_SIZE
  const SECOND: nat := FIRST + SIZEOF_MM + HEADER_SIZE

  // The heap after kheap_init(4), with one mm_struct in it, and with two.
  const START := [Block(HEAP_BASE, 16352, true)]
  const ONE := [Block(HEAP_BASE, 104, false), Block(HEAP_BASE + 136, 16216, true)]
  const REST_BLOCK := Block(HEAP_BASE + 272, 16080, true)
  const TWO := [Block(HEAP_BASE, 104, false), Block(HEAP_BASE + 136, 104, false), REST_BLOCK]
  // After the first is released, and after one more mm_alloc.
  const GONE := [Block(HEAP_BASE, 240, true), REST_BLOCK]
  const AGAIN := [Block(HEAP_BASE, 104, false), Block(HEAP_BASE + 136, 104, true), REST_BLOCK]

  lemma FirstTwo()
    ensures Fits(START, SIZEOF_MM) && AllocAt(START, FirstFit(START, SIZEOF_MM, 0), SIZEOF_MM) == ONE
    ensures Fits(ONE, SIZEOF_MM) && AllocAt(ONE, FirstFit(ONE, SIZEOF_MM, 0), SIZEOF_MM) == TWO
    ensures FittingPtr(START, SIZEOF_MM) == FIRST && FittingPtr(ONE, SIZEOF_MM) == SECOND
  {
    assert FirstFit(START, SIZEOF_MM, 0) == 0;
    assert FirstFit(ONE, SIZEOF_MM, 0) == 1;
  }

  // The release of the first takes the second, which is in use.
  lemma ReleaseTakes()
    ensures HeapRuns.FreeEach(TWO, [FIRST]) == GONE && !InUse(GONE, SECOND, 0)
  {
    FreeEachOne(TWO, FIRST);
    assert HeapRuns.IndexOf(TWO, HEAP_BASE) == 0;
    assert FreeForward(TWO, 0, AsWritten) == GONE;
  }

  // The second mm_alloc from here is given the block of the second again.
  lemma LastTwo()
    ensures Fits(GONE, SIZEOF_MM) && AllocAt(GONE, FirstFit(GONE, SIZEOF_MM, 0), SIZEOF_MM) == AGAIN
    ensures Fits(AGAIN, SIZEOF_MM) && FittingPtr(AGAIN, SIZEOF_MM) == SECOND
  {
    assert FirstFit(GONE, SIZEOF_MM, 0) == 0;
    assert FirstFit(AGAIN, SIZEOF_MM, 0) == 1;
  }

  // The first two calls: the mm_structs lie side by side.
  method TwoSpaces(frames: Pmm.FrameAllocator, ram: Memory) returns (sys: MemorySystem?)
    requires frames.Valid() && frames.Tight() && 0 < |ram| == frames.totalPages <= SLOT_PAGES && frames.Bits()[0]
    requires frames.freePages >= 37
    modifies frames, frames.bitmap
    ensures sys != null && fresh(sys) && fresh(sys.k) && fresh(sys.k.m) && fresh(sys.k.nodes) && sys.k.m.pmm == frames
    ensures sys.Valid() && |sys.spaces| == 2 && sys.Blocks() == TWO && fresh(sys.spaces[0]) && fresh(sys.spaces[1])
    ensures sys.spaces[0].Pointers() == [FIRST] && sys.spaces[1].Pointers() == [SECOND]
    ensures sys.spaces[1].block == SECOND
    ensures frames.freePages >= 2
  {
    hide Pmm.CountFree, Pmm.BitsOf, Pmm.FrameAllocator.Valid, MemorySystem.Valid, Heap.KernelHeap.Valid, AllocAt,
      Fits, FittingPtr, Losses, Careful, AllInUse, Rest, Sizes, HeapRuns.FreeEach, UsedKept, InUse, OwnFrees,
      Heap.View;
    FirstTwo();
    sys := Boot(frames, ram);
    sys.Open();
    assert sys.Blocks() == START;
    var _, _, _ := sys.NewSpace(sys.State());
    var _, _, _ := sys.NewSpace(sys.State());
  }

  // The first three calls: a second space is alive, and its mm_struct lies in a free block.
  method LoseMmStruct(frames: Pmm.FrameAllocator, ram: Memory) returns (sys: MemorySystem?)
    requires frames.Valid() && frames.Tight() && 0 < |ram| == frames.totalPages <= SLOT_PAGES && frames.Bits()[0]
    requires frames.freePages >= 37
    modifies frames, frames.bitmap
    ensures sys != null && fresh(sys) && fresh(sys.k) && fresh(sys.k.m) && fresh(sys.k.nodes) && sys.k.m.pmm == frames
    ensures sys.Valid() && |sys.spaces| == 1 && sys.spaces[0].block == SECOND && sys.Blocks() == GONE && !sys.intact
    ensures frames.freePages >= 2
  {
    hide Pmm.CountFree, Pmm.BitsOf, Pmm.FrameAllocator.Valid, MemorySystem.Valid, Heap.KernelHeap.Valid, Careful,
      AllInUse, Rest, Sizes, HeapRuns.FreeEach, InUse;
    ReleaseTakes();
    sys := TwoSpaces(frames, ram);
    sys.FreeSpaceAt(0);
    Taken(sys);
  }

  // mm_alloc twice, mm_free of the first space, mm_alloc twice: the space made second and the space
  // made last are both live, are different trees, and have one mm_struct.
  method SharedMmStruct(frames: Pmm.FrameAllocator, ram: Memory) returns (sys: MemorySystem?)
    requires frames.Valid() && frames.Tight() && 0 < |ram| == frames.totalPages <= SLOT_PAGES && frames.Bits()[0]
    requires frames.freePages >= 37
    modifies frames, frames.bitmap
    ensures sys != null && sys.Valid() && |sys.spaces| == 3 && sys.spaces[0].root != sys.spaces[2].root
    ensures sys.spaces[0].block == sys.spaces[2].block == SECOND && !sys.intact
  {
    hide Pmm.CountFree, Pmm.BitsOf, Pmm.FrameAllocator.Valid, MemorySystem.Valid, Heap.KernelHeap.Valid, AllocAt,
      Fits, FittingPtr, Losses, Careful, AllInUse, Rest, Sizes, HeapRuns.FreeEach, UsedKept, InUse, OwnFrees,
      Heap.View;
    sys := LoseMmStruct(frames, ram);
    LastTwo();
    var _, _, _ := sys.NewSpace(sys.State());
    var _, _, _ := sys.NewSpace(sys.State());
    RootsDiffer(sys, 0, 2);
  }

  const CLASH := [OpNew, OpNew, OpFree(0), OpNew, OpNew]

  // The two mm_structs are planned side by side.
  lemma TwoPlanned()
    ensures PlanAfter(CLASH, BootLayout(), 2).blocks == TWO
    ensures PlanAfter(CLASH, BootLayout(), 2).spaces == [SpaceLayout([], [FIRST]), SpaceLayout([], [SECOND])]
    ensures PlanAfter(CLASH, BootLayout(), 2).others == map[]
  {
    hide AllocAt, FirstFit, AllocFirst, FirstPtr, Fits, FittingPtr;
    FirstTwo();
    FirstIs(START, SIZEOF_MM);
    FirstIs(ONE, SIZEOF_MM);
    assert PlanAfter(CLASH, BootLayout(), 0) == BootLayout();
    assert PlanAfter(CLASH, BootLayout(), 1) == Planned(OpNew, BootLayout());
    assert PlanAfter(CLASH, BootLayout(), 2) == Planned(OpNew, Planned(OpNew, BootLayout()));
  }

  // The check before the third call of that run says so: whenever there are the frames for it, not
  // every holder keeps his block.
  lemma ClashIsForeseen()
    ensures !PlanCareful(CLASH, BootLayout())
  {
    hide HeapRuns.FreeEach, HeapRuns.FreeListed, PlanAfter, BootLayout, FreeTakes;
    TwoPlanned();
    var lay := PlanAfter(CLASH, BootLayout(), 2);
    var after := Planned(OpFree(0), lay);
    assert after.spaces == [SpaceLayout([], [SECOND])];
    assert SECOND in after.spaces[0].ptrs;
    FirstTakesSecond();
    CarefulOne(TWO, FIRST, AllPointers(after));
    assert !CarefulCall(CLASH[2], lay);
  }

  lemma FirstTakesSecond()
    ensures FreeTakes(TWO, FIRST, SECOND)
  {
    assert HeapRuns.IndexOf(TWO, HEAP_BASE) == 0;
  }

  lemma Taken(sys: MemorySystem)
    requires sys.Valid() && |sys.spaces| == 1 && sys.spaces[0].Pointers() == [SECOND] && sys.Blocks() == GONE
    ensures !sys.intact
  {
    hide MemorySystem.Valid, MemoryHeld, InUse;
    ReleaseTakes();
    sys.Open();
    if sys.intact {
      var sb := PointersOf(sys.spaces);
      PtrsIn(sys.holders, sb[0]);
      assert SECOND in sb[0].ptrs;
      NotInUse(GONE, SECOND, Sizes(sys.holders)[SECOND]);
    }
  }

  lemma RootsDiffer(sys: MemorySystem, i: nat, j: nat)
    requires sys.Valid() && i < |sys.spaces| && j < |sys.spaces| && i != j
    ensures sys.spaces[i].root != sys.spaces[j].root
  {
    hide MemorySystem.Valid, Booted, HeapHeld;
    sys.Open();
    var sv := ViewsOf(sys.spaces);
    HeldParts(sys.k.m.mem, sys.k.m.tab, sys.k.m.kroot, sv, i);
    assert sv[j].root != sv[i].root;
  }
}
