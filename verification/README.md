# A verified model of the SudoOS kernel

SudoOS is a small x86-64 kernel. This project models its memory system (frame allocator, page
tables, address spaces, program loading, kernel heap, kernel stacks), its scheduler, its context
switch and its in-memory file system, and proves what these parts promise over whole runs.

## What is modelled

**Frames and page tables** (`Pte`, `Pmm`, `PageTable`, `Machine`). Physical memory is a sequence of
frames of 512 words; the higher-half direct map is the identity. `Pmm.FrameAllocator` is the bitmap
with its free counter and search cursor over a byte array. `Machine.Machine` holds memory, the
allocator and three ghost accounts: which frame is the table at which place of which tree (`tab`),
which frame is the page at which address of which space (`pages`), and which busy frames are
neither (`stray`: reserved at boot, between allocation and mapping, or lost). Its invariant says
that the accounts are exactly what memory holds and that the bitmap marks precisely the frames in one
of the three. So that `stray` cannot hide anything, `failures` counts the calls of `get_next_table`
that found no frame, and every operation ensures `Machine.Losses`: `stray` never shrinks, and it has
grown by exactly as many frames as tables could not be had. `Machine.LostLast` adds where that can happen: one
operation loses at most one frame, and then the last that was free. The four-level walk `PageTable.Entry` is
defined on memory alone. The translations of any run of `vmm_map_page` calls are those of a flat map from
page numbers to the last entry written. `PageTable.PageRights`, also on memory alone, is what the four entries of a
walk allow together (Intel SDM, volume 3A, section 4.6).

**Address spaces** (`MapPages`, `Confine`, `Teardown`, `Vmm`, `Fork`, `Lifecycle`, `UserMem`, `Elf`).
`mm_alloc`, `mm_map_range` with its rollback, `mm_copy`, `mm_free` and `load_elf` run on the same
machine together with the kernel heap, which may take frames and grow in the middle of each of
them. `Confine.Confined` is the frame condition they all meet: an operation on one space changes
only that space and the kernel heap. A live space is described with its rights: every mapped page is a user page at
all four levels, its own entry is writable exactly when its area is, and the entries above allow writes while all
areas do. A store from user mode or by the kernel passes only through a page that is writable at all levels, so that
`load_elf` rests on the VM_WRITE it asks for. `Lifecycle.LiveAndDie` follows a space from `mm_alloc` through
any mappings to `mm_free`.

**The whole memory system** (`Kstack`, `HeapUse`, `Holders`, `SystemMem`, `SystemSpec`, `SystemRuns`,
`SystemSpaces`, `System`, `HeapClash`). The kernel heap, the kernel stacks and all live spaces share one
machine. The heap and the stacks grow in two different slots of the kernel's PML4, and every growth relation
names its slot, so that the contracts compose. A registry says which space or other caller holds which heap
block: the pointer of each `mm_struct`, of each VMA and of each other `kmalloc`, with its size.
`System.MemorySystem` runs `mm_alloc`, `mm_map_range`, `sys_fork`'s memory part, `mm_free`, `kstack_init`,
`kstack_free`, `kheap_expand`, `kmalloc` and `kfree` in any order after the boot sequence.

`SystemSpec.SysState` is the system as one value: the heap's blocks and their holders, the live spaces with their
areas and pointers, the stacks, memory, page tables and the account of all frames. `SystemSpec.OpStep` relates the
state before an operation, the operation and the state after it: what appears and what goes, in which blocks; which
`kfree` calls are made; what memory the operation may touch; how many frames may be lost (at most one in an
operation, its last one, and none with enough frames); and the exact plan it follows when nothing runs out.
`System.MemorySystem.Apply` meets it, and `System.MemorySystem.Run` and `System.BootAndRun` return the chain of all
states, which ends in the real one. What holds of every run is then proved about chains:

- every holder of a heap block still has it, in use and large enough, after every operation, if and only if every
  operation is careful: none of its `kfree` calls finds a held block right behind the one it releases, and no
  `mm_map_range` has failed after linking its VMA (`SystemRuns.HonestIffCareful`);
- with heap room and frames for the whole run this is a condition on the list of operations and the heap at the
  start alone, the run follows its plan to the end and loses no frame (`SystemRuns.PlannedRun`); without
  `mm_free` and `kfree` calls the condition is met (`SystemRuns.NoFreesFit`);
- each busy frame has one owner, and exactly as many are lost as tables could not be had
  (`SystemRuns.EachFrameOnce`);
- a space that no operation addresses keeps its areas, its translations and the contents of its pages
  (`SystemSpaces.AloneIsKept`), and a child keeps its copies whatever becomes of the parent
  (`SystemSpaces.CopiesOutliveParent`); a heap page, and a stack page until its stack is given back, keeps its frame
  and contents (`SystemSpaces.KernelPageStays`);
- as long as no table was missing, every stack has all its pages, and every space of an intact heap has exactly the
  pages of its areas mapped (`SystemSpaces.ReadyFromBoot`, `SystemSpaces.ExactFromBoot`);
- in every state, also after failures, the mapped pages of every live space have the rights their areas ask for
  (`SystemSpaces.RightsInEveryState`).

**Kernel heap** (`IntrusiveList`, `HeapSpec`, `HeapRuns`, `HeapSafety`, `Heap`). The heap is a circular
list of headers rewired in place; `HeapSpec` and `HeapRuns` are its meaning as a sequence of blocks,
with a switch between the rule the code follows and the rule the repository's README documents.
`HeapSafety` says exactly along which runs the code does what the documentation says.

**Scheduler** (`SchedSpec`, `SchedWitness`, `Sched`). A step machine with the events tick, yield, fork, process
creation and exit, and the class that performs the steps on the intrusive ready queue.

**Context switch** (`Isa`, `Switch`, `Interleave`). A small instruction interpreter runs listings of
`switch_to`, the interrupt stub and `fork_ret_entry`; whole runs interleave any number of processes on
disjoint kernel stacks.

**File system** (`Bytes`, `CStrings`, `RamFsSpec`, `RamFsPaths`, `RamFsRuns`, `RamFsWitness`, `Dirent`,
`RamFs`, `Ls`).
`strtok_r` on a character buffer, path resolution, `getcwd`, creation, directory records and the
loop of the shell's `ls`. A character below 256 stands for a byte.

## Where the code and its documentation differ

The model follows the code. These are results about it:

- `kfree` merges with an adjacent block whether or not it is free (kernel/src/mm/pmm.c:238-253), although
  README.md:508-515 says the neighbour must be free. Tiling survives (`HeapRuns.RunTiles`). One release
  is exact if and only if the neighbours are free (`HeapSpec.FreeIsExactIff`). Over a run, the used
  blocks stay exactly what the callers hold if and only if every call is careful: a `kfree` whose
  neighbours are free, a `kmalloc` for which a block fits, no page is to be had, or the last block is
  free (`HeapSafety.HonestIffCareful`); such a run is the documented run, and held blocks are disjoint
  (`HeapSafety.CarefulRunsAreSafe`). A careless call can make held blocks overlap
  (`HeapRuns.AsWrittenOverlaps`). With the documented rule every run is safe
  (`HeapRuns.DocumentedRunsAreSafe`).
- For the address spaces this means that `mm_free` may take the `mm_struct` of another live space.
  `HeapClash.SharedMmStruct` is a run of five calls after boot (`mm_alloc` twice, `mm_free` of the first
  space, `mm_alloc` twice), with as much memory as one likes, that ends with two live spaces of different PML4s
  and one `mm_struct`. Which calls do this is known before each is made: a sequence of `kfree` calls
  leaves the other holders' blocks in use if and only if no call finds one of them right behind the block
  it releases (`HeapUse.FreesKeepIff`, for each operation `Holders.SpaceReleased`,
  `Holders.OtherReleased` and `Holders.FailureReleased`, over runs `SystemRuns.HonestIffCareful`). The check
  before a call is `SystemSpec.CarefulCall`, exact by `SystemRuns.CarefulIffCall`; made for that whole run
  before it starts, it fails (`HeapClash.ClashIsForeseen`). It is less than what the documented rule needs: a
  used block in front, or one of the same space behind, does no harm to anybody who holds a block.
- When `mm_map_range` runs out of frames at a page, it releases the VMA it has already linked
  (kernel/src/mm/vmm.c:69-98); the list then leads through a block that somebody else may be given. Such
  a call is not careful (`System.MemorySystem.MapIn`).
- After a failed `mm_copy`, `sys_fork` frees the child a second time (kernel/src/proc/proc.c:327-333). Every
  frame is then already free, so the bitmap does not change; the `kfree` calls are made again
  (`Vmm.MmFreeAgain`).
- A failed `kstack_init` leaves the pages it has mapped (kernel/src/mm/pmm.c:359-366); nobody ever gives
  them back (`Kstack.KernelStacks.KstackInit`, and the list `broken` of `System.MemorySystem`).
- `kheap_expand` releases the new page with the same `kfree`, so it may be glued to a used last
  block. The retry of `kmalloc` then never finds anything and drains every frame
  (`HeapRuns.UsedTailDrains`, two calls after boot in `HeapSafety.DrainsFromBoot`); in all other cases
  one expansion is enough (`HeapRuns.OneExpansionSuffices`).
- A process whose slice ends while nobody else is queued stays marked READY
  (kernel/src/proc/sche.c:22-26 and 41-48), exactly in that case (`SchedSpec.StaysRunningIff`; a run
  from boot in `SchedWitness.LoneExpiryFromBoot`). Its ticks are no longer counted
  (`SchedSpec.UncountedTicks`), and if it then yields it is never dispatched again
  (`SchedSpec.YieldLoses`, `SchedWitness.LostFromBoot`).
- `vmm_map_page` reports nothing when a table frame is missing (kernel/src/mm/paging.c:68-73). The frame
  of the page is then lost: it stays busy without an owner. These are the only frames that are ever lost,
  exactly one for each table that could not be had (`Machine.Losses`, over runs
  `SystemRuns.EachFrameOnce`), and at most one in an operation (`Machine.LostLast`).
- `get_next_table` gives a new table the flags of the page it is made for (kernel/src/mm/paging.c:43), and the
  processor needs the R/W bit at every level. So a page of a VM_WRITE area can be read-only: its page table was made
  for an area without VM_WRITE next to it (`Machine.Machine.ReadOnlyFirst` makes one in two calls). A page of a
  writable area can be written if and only if the entries above it, as far as they existed before the call, allow it
  (`Machine.Machine.MapPage`, for a whole range `Vmm.RightsOfRange`). While all areas of a space have VM_WRITE, as all
  those of the kernel do, every page can (`SystemSpaces.RightsInEveryState`).
- `kmalloc` rounds its size up to a multiple of 8 in 64 bits (kernel/src/mm/pmm.c:201). For the last seven sizes
  this wraps to 0 (`HeapRuns.Align8Covers`), and the block handed out has fewer bytes than were asked for; for all
  other sizes it has at least as many (`Heap.KernelHeap.Kmalloc`).
- `pmm_set_free` drops a range that reaches `total_pages`, so the top usable range may never be
  released; no reserved page becomes free because of it (`Pmm.InitProtects`, `Pmm.BitmapNeverFree`).
- The path printed by `getcwd` leads back to its directory if and only if it has at most 128
  characters, because `resolve_path` keeps 127 characters after the leading slash
  (`RamFsPaths.CwdPathResolvesIff`). `RamFsWitness.LongPathDoesNotResolve` gives a run to a directory
  where it does not.
- `resolve_path` accepts a regular file followed by one slash and refuses it when two slashes
  follow (`RamFsPaths.WalkFollows`, `RamFsWitness.SlashesAfterFile`).
- The failure branch `temp == -1` in the first loop of `getcwd` cannot be reached from the states
  of a running system and is not written out in the model; nor is the test for an empty token
  after `strtok_r`, which never returns one.

## Model

| member | source | states |
|---|---|---|
| Pte.IndexMacros | kernel/src/mm/paging.h:69-86 | on 64-bit vectors, the four shift-and-mask index macros are the quotients and remainders the model computes with |
| Pte.EntryMacros | kernel/src/mm/paging.h:69-86 | on 64-bit vectors, the present test, the address mask and the flag mask are the arithmetic forms |
| Pte.ComposeMacro | kernel/src/mm/paging.c:76-76 | an aligned address or-ed with flags is their sum, and both can be masked out again |
| Pte.SetPresentMacro | kernel/src/mm/paging.c:76-76 | on 64-bit vectors, or-ing PTE_PRESENT sets bit 0 and leaves every other flag |
| Pte.EntryRoundTrip | kernel/src/mm/paging.c:76-76 | frame and flags of a composed entry read back; it is present exactly when bit 0 of the flags is set |
| Pte.EntryRights | kernel/src/mm/paging.c:76-76 | the R/W and U/S bits of a composed entry are those of the flags, and or-ing PTE_PRESENT touches neither |
| Pte.LowFlagsRights | kernel/src/mm/vmm.c:133-137 | an entry rebuilt from a frame and the low flags of another entry allows what that one does |
| Pte.RightsMacros | kernel/src/mm/paging.h:15-35 | on 64-bit vectors, PTE_RW and PTE_USER are the bits that the rights are read from |
| Pte.UpSuccessor | kernel/src/mm/paging.h:69-86 | consecutive pages lie in the same table or in neighbouring ones at every level |
| Pmm.WriteBit | kernel/src/mm/pmm.c:21-47 | setting or clearing one bit of one byte changes exactly one page's state |
| Pmm.NextFitIsLowestFit | kernel/src/mm/pmm.c:96-136 | with every page below the cursor busy, the cursor search finds the lowest free page and the wrap-around finds nothing |
| Pmm.FrameAllocator.AllocPage | kernel/src/mm/pmm.c:96-136 | takes the lowest free page, fails exactly when none is free, keeps the counter equal to the number of clear bits and every page below the cursor busy |
| Pmm.FrameAllocator.FreePage | kernel/src/mm/pmm.c:139-163 | out-of-range and double frees change nothing; a real one clears one bit, counts it and lowers the cursor if needed; the cursor property is kept |
| Pmm.FrameAllocator.SetRange | kernel/src/mm/pmm.c:50-83 | paints the whole range, or nothing at all when it reaches the end of memory; the counter stays right |
| Pmm.PmmInit | kernel/src/mm/pmm.c:266-345 | gives the exact set of free pages after initialisation, for every memory map, with the counter and the cursor property |
| Pmm.InitProtects | kernel/src/mm/pmm.c:266-345 | a page free after initialisation lies in a usable entry, is not page 0 and is not in the bitmap |
| Pmm.BitmapNeverFree | kernel/src/mm/pmm.c:50-83 | although ranges reaching the end are skipped, an offered page of the bitmap is always taken back |
| PageTable.WalkMeetsTables | kernel/src/mm/paging.c:90-104 | a walk from any root meets only tables, each at its recorded place |
| PageTable.RightsOfWalk | kernel/src/mm/paging.c:90-104 | the rights of a mapped page, read off memory, are the conjunction of the R/W bits and of the U/S bits of the four entries on its walk, all of them present |
| PageTable.PlacesAreUnique | kernel/src/mm/paging.c:19-50 | no two frames are the table at the same place |
| PageTable.DataWrite | kernel/src/mm/vmm.c:137-137 | writes outside the tables change no translation of any space |
| PageTable.InsertKeepsEntries | kernel/src/mm/paging.c:19-50 | hanging a zeroed table below an absent entry changes no translation of any space |
| PageTable.InsertAllows | kernel/src/mm/paging.c:43-43 | hanging a table takes away, on the way to any page of any space, at most what the new entry withholds |
| PageTable.LeafWrite | kernel/src/mm/paging.c:76-76 | writing a leaf entry changes one page of one space, or one kernel page of all spaces at once, and nothing else |
| PageTable.GrowThenWrite | kernel/src/mm/paging.c:59-81 | creating any tables and then writing the leaf has the effect of the leaf write alone |
| PageTable.MappedKeepsRights | kernel/src/mm/paging.c:59-81 | every mapped page but the one just written keeps its rights, in every space |
| PageTable.UpperStays | kernel/src/mm/paging.c:19-50 | while the tables of a space are not written, the entries above all its user pages allow what they did |
| PageTable.KernelHalfAgrees | kernel/src/mm/vmm.c:19-23 | every live root translates every kernel-half page as the kernel's PML4 does, with the same rights, also for pages mapped after the root was made |
| PageTable.NewRoot | kernel/src/mm/vmm.c:9-23 | a zeroed PML4 with copied upper entries is a well-formed tree with an empty user half that withholds no right, and no translation changes |
| PageTable.FirstRoot | kernel/src/mm/paging.c:128-140 | an empty PML4 alone is a well-formed forest that maps nothing |
| PageTable.DropSpace | kernel/src/mm/vmm.c:51-56 | what remains after the tables of one space are gone is well formed |
| Machine.Machine.AllocFrame | kernel/src/mm/pmm.c:96-136 | an allocated frame is no table, no page and not in use; fails exactly when no frame is free |
| Machine.Machine.GetNextTable | kernel/src/mm/paging.c:19-50 | returns the existing child, or hangs one new empty table under an entry of its frame and the caller's flags and uses one frame, or fails with nothing changed but the count of failures; unique ownership is kept |
| Machine.Machine.GetPte | kernel/src/mm/paging.c:90-104 | finds the entry that the four-level walk reads, NULL exactly when a table is missing |
| Machine.Machine.MapPage | kernel/src/mm/paging.c:59-81 | maps exactly when the free frames cover the missing tables, then changes one translation and uses exactly that many frames; otherwise no translation changes. The page then has the rights of the flags less what tables that were there before withhold; tables that had to be made withhold exactly what the flags do; every other mapped page of every space keeps its rights |
| Machine.ReachedRights | kernel/src/mm/paging.c:68-73 | after the three calls of get_next_table the entries above the page allow what they did, less what the flags withhold if a table had to be made |
| Machine.Machine.ReadOnlyFirst | kernel/src/mm/paging.c:28-46 | two calls after which a page whose own entry has PTE_RW cannot be written, because its page table was made for a read-only neighbour |
| Machine.Machine.RunMapCalls | kernel/src/mm/paging.c:19-104 | after any run of calls the walk equals the flat map to the last entry written, for all pages; three frames a call always suffice; all calls mapped exactly when no table was missing |
| Machine.Machine.MapNewPage | kernel/src/mm/vmm.c:79-101 | allocation and mapping together: the page gets a frame nobody owned, or the exact shortage outcome; a frame is lost exactly when a table was missing, and counted |
| Machine.LossesNone | kernel/src/mm/paging.c:59-81 | between two moments no frame is lost if and only if no table was missing |
| Machine.Machine.UnmapPage | kernel/src/mm/vmm.c:86-94 | gives exactly the page's own frame back and clears its entry; an absent page changes nothing |
| MapPages.NeedIsBounded | kernel/src/mm/vmm.c:78-102 | mapping n pages needs at most n frames plus (n+1022)/512 tables and the analogous bounds one and two levels up |
| MapPages.MapAll | kernel/src/mm/vmm.c:78-102 | with enough frames all pages are mapped to distinct new frames; on failure none of them is mapped and every page frame is back; at most one frame is lost, the last one; each page that is mapped has the rights of the flags in its entry, and new tables have them too, also when the call fails |
| MapPages.Rollback | kernel/src/mm/vmm.c:83-98 | undoes any prefix of the mappings exactly |
| Confine.MappingIsConfined | kernel/src/mm/vmm.c:78-102 | mapping pages of one space changes no translation, right, table or page of another |
| Confine.GrowthIsConfined | kernel/src/mm/pmm.c:166-186 | heap growth changes no user translation, no stack page, no page contents, no right of a user page or mapped kernel page, and no PML4 slot of any space |
| Confine.NewRootIsConfined | kernel/src/mm/vmm.c:9-23 | a new space changes nothing of the existing ones |
| Confine.ConfinedTrans | kernel/src/mm/vmm.c:3-143 | the frame condition composes over any sequence of operations on a space |
| Confine.ConfinedThenDropped | kernel/src/mm/vmm.c:39-59 | a space worked on and then freed leaves all other translations, tables and page contents as they were, but for the heap's growth |
| Vmm.NewPml4 | kernel/src/mm/vmm.c:9-23 | a new space on a frame nobody owned, with the kernel's upper half and nothing mapped; or nothing changed; its entries withhold nothing |
| Vmm.NewIsOpen | kernel/src/mm/vmm.c:9-23 | in a space without areas the entries above every user page withhold no right |
| Vmm.MmAlloc | kernel/src/mm/vmm.c:3-36 | the same for all of mm_alloc, including the heap growth its block may cause; the mm_struct lies in a block that nobody had, and no holder loses his; without a PML4 the block is given back; it fails only when no frame is left, and a fitting block (then it is the first fit) and one frame, or a free last block and five, are enough |
| Vmm.MapUser | kernel/src/mm/vmm.c:78-102 | the page loop between heap operations keeps the heap's pages and all other spaces |
| Vmm.MapRange | kernel/src/mm/vmm.c:61-105 | rounds outwards, lists the area, maps exactly its pages to new frames, as user pages whose entries have the R/W bit if and only if the area has VM_WRITE; together with the entries above, a page has these rights less what earlier tables of the space withhold; its VMA lies in a block that nobody had and is appended behind those of the other areas; a failure leaves none of the pages mapped and gives the block of the linked VMA back; it succeeds whenever the frames cover the bound behind what the heap took, which is nothing with a fitting block and at most four frames with a free last block; whatever happens, what is mapped lies in the listed areas, and a frame is lost only for a missing table |
| Vmm.SpanIsExact | kernel/src/mm/vmm.c:64-66 | the pages of a range are exactly those that hold one of its bytes |
| Vmm.SpaceOkGrows | kernel/src/mm/vmm.c:69-76 | a newly mapped range is disjoint from the listed areas, and exactly the pages of the areas stay mapped |
| Vmm.PteFlagsRights | kernel/src/mm/vmm.c:79-80 | the flags made from vm_flags have the U/S bit, and the R/W bit if and only if VM_WRITE is set |
| Vmm.RightsOfRange | kernel/src/mm/vmm.c:78-102 | the rights of each page of a newly mapped range over all four levels, from what the entries above it allowed before |
| Vmm.CoveredRights | kernel/src/mm/vmm.c:61-143 | in a live space every mapped page is a user page at all four levels, its entry is writable if and only if its area has VM_WRITE, and when all areas have it writes pass all four levels |
| Vmm.FreeSpace | kernel/src/mm/paging.c:107-125 | every table and page of a space is released exactly once, nothing else is, and the accounts lose exactly that space |
| Vmm.MmFree | kernel/src/mm/vmm.c:39-59 | all of mm_free on a running system: the blocks of its VMAs and then that of its mm_struct are given to kfree, in this order; the tables and pages as above; all other spaces, the heap pages and the kernel half are untouched |
| Vmm.MmFreeAgain | kernel/src/proc/proc.c:327-333 | a second mm_free with nothing allocated in between makes the same kfree calls and changes neither the bitmap nor the free count |
| Vmm.CopyPage | kernel/src/mm/vmm.c:120-139 | one page is copied into the child's own frame under the parent's flags, or skipped, or reported missing |
| Teardown.FreeRecursive | kernel/src/mm/paging.c:107-125 | at every level, releases exactly the frames below the table, each once and while busy, in 256 entries at level 4 and 512 below |
| Teardown.FreeAgain | kernel/src/mm/paging.c:107-125 | a second walk over released tables frees no frame: every pmm_free_page call is a detected double free |
| Teardown.LogChild | kernel/src/mm/paging.c:110-123 | a child's own frame is not among the frames below it, and together they are all frames below the entry |
| Teardown.UnderRoot | kernel/src/mm/paging.c:107-125 | entries 0..255 reach everything a user space owns but its PML4 |
| Teardown.PagesDropSpace | kernel/src/mm/vmm.c:51-56 | the page accounts of the other spaces stay exact |
| Lifecycle.LiveAndDie | kernel/src/mm/vmm.c:3-105 | mm_alloc, page-disjoint mm_map_range calls and mm_free leave all translations as they were and the bitmap too, except for frames the kernel heap grew by and frames lost to missing tables; with enough heap room and frames, known before the call, the bitmap is exactly the same; in the heap, kmalloc takes no block from anybody, and every kfree is of a block that nobody had before |
| Fork.MmCopy | kernel/src/mm/vmm.c:107-143 | on success every page of every parent area is in the child with equal contents and flags, in frames that belonged to nobody, and each area has a VMA of its own in a block that nobody had; on failure nothing of the child is left, its blocks have been given to kfree, and a second mm_free would find only free frames; either way the parent and all other spaces are unchanged; enough frames imply success, and with heap room for the areas the heap takes none |
| Fork.CopyNext | kernel/src/mm/vmm.c:111-140 | one round of the copy loop keeps all earlier copies while tables and heap grow, and changes only the child and the heap even when it fails |
| Fork.CopyArea | kernel/src/mm/vmm.c:120-139 | the page loop copies a whole area and disturbs no other copied area, and leaves the rights of every page of the child, which are those its area asks for, as they were |
| Fork.AlikeInArea | kernel/src/mm/vmm.c:113-137 | parent and child have the pages of an area with the same rights in their entries, those the area asks for |
| Fork.WritesAreIsolated | kernel/src/mm/vmm.c:107-143 | a later write through one space is never seen through another, nor at another page of the same space |
| Heap.HeapFits | kernel/src/mm/pmm.c:166-186 | the mapped heap never fills its window, since its pages lie on distinct frames |
| Heap.KernelHeap.Unlink | kernel/src/lib/list.h:70-74 | removing a header removes exactly its block from the heap's block sequence |
| Heap.KernelHeap.MergeForward | kernel/src/mm/pmm.c:238-245 | the forward merge, as the code decides it |
| Heap.KernelHeap.Kfree | kernel/src/mm/pmm.c:230-255 | the in-place list after kfree is the specified block sequence |
| Heap.KernelHeap.ExpandPage | kernel/src/mm/pmm.c:166-186 | one round of growth: a frame nobody owned at the heap's top, listed and released; nothing outside the heap's slot changes; four frames suffice, and running into an unmapped page leaves no frame; the page is writable and not for user mode |
| Heap.KernelHeap.Expand | kernel/src/mm/pmm.c:166-186 | n rounds, or as many as there were frames; four frames a page suffice |
| Heap.KernelHeap.FirstFit | kernel/src/mm/pmm.c:188-198 | the first header in address order that is free and large enough, NULL if there is none |
| Heap.KernelHeap.Carve | kernel/src/mm/pmm.c:212-227 | splits and marks in place, as specified, keeping the heap tiled |
| Heap.KernelHeap.Kmalloc | kernel/src/mm/pmm.c:200-228 | search, growth and recursive retry terminate; the pointer and the block sequence are the specified ones; blocks in use stay in use and the one handed out is one that nobody had and has at least the bytes asked for, unless rounding them up wraps, and then it has fewer; a fitting block is handed out and no frame taken; behind a free last block four frames a page suffice; any failure leaves no frame |
| Heap.KernelHeap.FreePointer | kernel/src/mm/pmm.c:230-255 | kfree of any pointer: a listed header is released as specified, and a header that an earlier kfree has unlinked changes no listed block |
| HeapSpec.TilesExtent | kernel/src/mm/pmm.c:166-263 | sizes plus headers of a tiled heap add up to its extent |
| HeapSpec.AllocTiles | kernel/src/mm/pmm.c:212-227 | a split or whole allocation keeps the tiling and yields a used block that is large enough |
| HeapSpec.AllocWaste | kernel/src/mm/pmm.c:216-225 | the block handed out is less than a header and 16 bytes larger than asked for; what is split off has at least 16 bytes and is free, right behind it; all other blocks stay |
| HeapSpec.RoomLeft | kernel/src/mm/pmm.c:212-227 | each allocation uses up one header and one data area of the room in the heap, wherever first fit puts it |
| HeapSpec.FreeTiles | kernel/src/mm/pmm.c:230-255 | kfree keeps the tiling, under the code's rule and the documented one |
| HeapSpec.ExpandForm | kernel/src/mm/pmm.c:166-186 | the net effect of growing by n pages: one larger last block or one new free block |
| HeapSpec.RetrySucceedsIff | kernel/src/mm/pmm.c:203-210 | after growth the retry finds a block if and only if the rule is the documented one, the heap was empty, or its last block free |
| HeapSpec.BlocksDisjoint | kernel/src/mm/pmm.c:166-263 | listed blocks of a tiled heap never overlap |
| HeapSpec.FreeIsExactIff | kernel/src/mm/pmm.c:238-253 | kfree releases exactly its argument if and only if both neighbours are free or the documented rule is used |
| HeapUse.KmallocKeeps | kernel/src/mm/pmm.c:200-228 | whatever kmalloc does, every block in use stays in use with its address and size, and the block handed out is large enough and was not in use |
| HeapUse.KfreeKeepsIff | kernel/src/mm/pmm.c:230-255 | through one kfree exactly its own block and the block in use right behind it are lost to their holders |
| HeapUse.FreesKeepIff | kernel/src/mm/pmm.c:230-255 | any sequence of kfree calls leaves all blocks held by others in use, with their sizes, if and only if no call finds one of them right behind the block it releases |
| HeapUse.OthersKeepIff | kernel/src/mm/vmm.c:3-143 | the same for an operation that calls kmalloc and then kfree on blocks of its own |
| HeapUse.EachFreeIsMeant | kernel/src/mm/vmm.c:43-58 | when a holder releases its blocks one after the other, each kfree meets a block still in use, or one that an earlier kfree of the sequence has taken |
| HeapUse.InUseDisjoint | kernel/src/mm/pmm.c:166-263 | different blocks in use are disjoint, headers included |
| HeapRuns.KmallocTiles | kernel/src/mm/pmm.c:200-228 | kmalloc keeps the tiling and hands out a used block that is large enough |
| HeapRuns.Align8Covers | kernel/src/mm/pmm.c:201-201 | rounding up covers the bytes asked for and adds fewer than eight; only the last seven 64-bit sizes wrap, to 0 |
| HeapRuns.PagesNeededSuffice | kernel/src/mm/pmm.c:205-208 | an expansion is by the least number of pages that hold the size and a header |
| HeapRuns.UsedTailDrains | kernel/src/mm/pmm.c:203-210 | with a used last block and no fit, kmalloc as written takes every frame and returns NULL |
| HeapRuns.OneExpansionSuffices | kernel/src/mm/pmm.c:203-210 | in all other cases it succeeds exactly when a block fits or enough frames are left, with at most one expansion |
| HeapRuns.RunTiles | kernel/src/mm/pmm.c:166-263 | over every run of kmalloc and kfree the blocks tile the heap exactly, with sizes that are multiples of 8 |
| HeapRuns.FreeCoalesces | README.md:508-515 | with the documented rule no two neighbouring blocks are both free after kfree |
| HeapRuns.DocumentedRunsAreSafe | README.md:494-526 | with the documented rule, after every run the blocks held by callers are exactly the used blocks and pairwise disjoint |
| HeapRuns.AsWrittenOverlaps | kernel/src/mm/pmm.c:238-253 | a run of four calls after which, as written, two held blocks overlap |
| HeapSafety.StepSafeIff | kernel/src/mm/pmm.c:200-255 | from a safe heap, a call as written keeps the used blocks equal to what callers hold if and only if it is careful, and then does what the documented rule does |
| HeapSafety.HonestIffCareful | kernel/src/mm/pmm.c:200-255 | over every run from boot, used and held blocks agree after every call if and only if every call is careful |
| HeapSafety.CarefulRunsAreSafe | kernel/src/mm/pmm.c:200-255 | a run of careful calls is the documented run; held blocks are pairwise disjoint |
| HeapSafety.DrainsFromBoot | kernel/src/mm/pmm.c:203-210 | a run of two calls after which any further supply of frames is taken and glued to a block in use |
| IntrusiveList.InsertRing | kernel/src/lib/list.h:38-43 | the four pointer writes insert one node between two neighbours of a ring |
| IntrusiveList.RemoveRing | kernel/src/lib/list.h:70-74 | unlinking leaves a ring of the other nodes and the node pointing at itself |
| IntrusiveList.NodeStore.ListAddAfter | kernel/src/lib/list.h:51-53 | inserts behind the given node |
| IntrusiveList.NodeStore.ListAddBefore | kernel/src/lib/list.h:61-63 | before the head means last |
| IntrusiveList.NodeStore.ListDel | kernel/src/lib/list.h:70-74 | removes exactly the node, in place |
| Kstack.KernelStacks.KstackInit | kernel/src/mm/pmm.c:348-374 | the guard page stays unmapped, every stack page gets a frame nobody owned, nothing outside the stack slot changes; four frames a page always suffice; it fails only when no frame is left, and then the pages built so far stay mapped and the rest of the stack is unmapped; every page is writable and not for user mode |
| Kstack.KernelStacks.KstackFree | kernel/src/mm/pmm.c:376-397 | gives back exactly the stack's four pages and unmaps them; no other translation of any space and no page contents change |
| System.HeldAfterOne | kernel/src/mm/vmm.c:61-143 | after work on one space, all live spaces still map only pages of their own areas and no PML4 is unaccounted for |
| System.HeldAfterFree | kernel/src/mm/vmm.c:39-59 | the same for the others after one space is freed |
| System.StacksOutliveConfined | kernel/src/mm/vmm.c:3-143 | no operation on a space or the heap touches the stack window |
| System.HeapOutlivesGrowth | kernel/src/mm/pmm.c:348-374 | kstack_init does not touch the heap window |
| System.StackAdded | kernel/src/mm/pmm.c:348-374 | after kstack_init, finished or not, every mapped page of the stack window belongs to a recorded stack |
| System.StackRemoved | kernel/src/mm/pmm.c:376-397 | the same for the remaining stacks after kstack_free |
| Holders.HeldApart | kernel/src/mm/vmm.c:3-36 | the blocks of any two registered pointers are disjoint, headers included |
| Holders.SpaceAdded | kernel/src/mm/vmm.c:3-36 | a new mm_struct in a block that nobody had is registered for its space, and no other holder is affected |
| Holders.VmasAdded | kernel/src/mm/vmm.c:69-76 | the same for new VMAs of a space |
| Holders.SpaceReleased | kernel/src/mm/vmm.c:39-59 | when a space gives back all its blocks, the other holders keep theirs if and only if the kfree calls are careful, and then the registry without the space is right |
| Holders.OtherReleased | kernel/src/mm/pmm.c:230-255 | the same for one block of a caller outside the spaces |
| Holders.FailureReleased | kernel/src/mm/vmm.c:10-14 | the same for an operation that fails and gives back what it got |
| System.MemorySystem.NewSpace | kernel/src/mm/vmm.c:3-36 | mm_alloc keeps the whole system's invariant; on success one space is new, with nothing mapped, its mm_struct in a block that no live space and no other caller uses, and no frame is lost; it fails only without frames, and then the holders keep their blocks if and only if the kfree of the mm_struct is careful; a fitting block and one frame are enough, then the block is the first fit; the other spaces and the kernel's pages keep translations and contents |
| System.MemorySystem.MapIn | kernel/src/mm/vmm.c:61-105 | mm_map_range on any live space keeps it too, also when it fails; the range gets new frames or stays unmapped, and all other pages of the space, the other spaces and the kernel's pages are as before; at most one frame is lost, for a missing table; the holders, the new VMA among them, keep their blocks if and only if no kfree was made, that is, the call did not fail at a page; with a fitting block and frames within the bound it succeeds |
| System.MemorySystem.CopyInto | kernel/src/proc/proc.c:327-333 | so does mm_copy into a new space; on success its memory is that of a copy; on failure that space is gone, freed twice as in the code, and the holders keep their blocks if and only if all those kfree calls are careful; heap room for the areas and frames within the bound are enough, and then blocks and pointers are the planned ones |
| System.MemorySystem.ForkSpace | kernel/src/proc/proc.c:327-341 | so does the memory part of sys_fork; on success one space with the parent's areas and, unless a table was missing, copies of its pages, and one stack are new; on failure there is no new space and no new stack, but the pages of a stack that could not be finished stay mapped, recorded as broken; every kfree is of a block obtained in the same call; with a fitting block for the mm_struct, room for the areas behind it and frames for the copy and the stack it succeeds and loses none |
| System.MemorySystem.FreeSpaceAt | kernel/src/mm/vmm.c:39-59 | so does mm_free, which removes exactly one space and gives exactly its blocks to kfree; the other holders keep theirs if and only if those calls are careful |
| System.MemorySystem.NewStack | kernel/src/mm/pmm.c:348-374 | so does kstack_init beside live spaces and the heap: one more stack, with all its pages mapped unless a table was missing, or, when frames are missing, one more broken one; with 16 free frames it succeeds and loses none; all other pages are as before |
| System.MemorySystem.FreeStack | kernel/src/mm/pmm.c:376-397 | so does kstack_free; no frame is lost; all pages but those of the stack are as before |
| System.MemorySystem.Malloc | kernel/src/mm/pmm.c:200-228 | so does kmalloc for a caller outside the spaces, who then holds the block; blocks, pointer and failure are those of the specified kmalloc for the pages the heap could get; it has at least the bytes asked for, unless rounding them up wraps |
| System.MemorySystem.Free | kernel/src/mm/pmm.c:230-255 | so does kfree by the holder; the others keep their blocks if and only if none of them lies right behind it |
| System.MemorySystem.Apply | kernel/src/mm/vmm.c:3-143 | any one operation takes the state before to a state that OpStep allows for it: exactly the spaces, pointers, stacks and holders that this operation makes or removes, its kmalloc and kfree calls on the blocks, the memory it may touch, the frames it may lose, and with enough heap room and frames exactly its plan; enough of both means that it returns |
| System.MemorySystem.Run | kernel/src/mm/vmm.c:3-143 | along every run of operations, in any order, each state follows from the one before by OpStep of the operation there, the last state is the real one, and the run stops early only at an operation that had not enough; every holder has his own block after every operation if and only if every operation is careful, and then the whole invariant is kept |
| System.Boot | kernel/src/main.c:106-112 | the boot sequence establishes the invariant; 33 free frames are enough, and then the heap is one free block of four pages; what is reserved is what was busy before; unless a table was missing, the first stack has all its pages |
| System.BootAndRun | kernel/src/main.c:106-112 | the system booted and run through any operations: the states are a chain from the one after boot; in each of them every busy frame has one owner; all holders keep their blocks all the way if and only if every operation is careful; in a state without a lost frame all stacks have their pages, and along careful runs all spaces exactly the pages of their areas; with heap room and frames for all operations besides the 33 of boot, the run goes to its end, loses nothing and ends as planned, and whether it is careful is decided by the operations alone, which it is without mm_free and kfree; it stops only when memory was exhausted or there were fewer than 33 free frames at the start |
| SystemSpec.RegistryAfter | kernel/src/mm/vmm.c:3-143 | after any operation on a system whose holders had their blocks, careful or not, the registry lists exactly the pointers of the live spaces and the other callers |
| SystemRuns.HonestIffCareful | kernel/src/mm/pmm.c:230-255 | along every chain of operations every holder has his own block after every operation if and only if every operation was careful |
| SystemRuns.KeysArePointers | kernel/src/mm/vmm.c:3-143 | the registry's pointers are exactly those that the spaces and the other callers hold, so that a caller can see them before a call |
| SystemRuns.CarefulIffCall | kernel/src/mm/pmm.c:230-255 | with enough heap room and frames, an operation leaves every holder his block if and only if the check on its kfree calls, made before the call, says so |
| SystemRuns.RunIsPlanned | kernel/src/mm/vmm.c:3-143 | a run with heap room and frames for its plan follows the plan state by state, loses no frame and never runs out |
| SystemRuns.PlannedRun | kernel/src/mm/pmm.c:166-255 | for such a run, all holders keep their blocks all the way if and only if the planned kfree calls are careful, which is decided before the run; it ends in the planned state |
| SystemRuns.NoFreesFit | kernel/src/mm/pmm.c:200-228 | a run without mm_free and kfree is careful, and one free block as large as all its requests with their headers is room enough |
| SystemRuns.BootFits | kernel/src/main.c:106-112 | for such a run from boot the four pages of the first heap are room enough up to 16352 bytes |
| SystemRuns.NeverRunsOut | kernel/src/mm/vmm.c:3-143 | a run with enough for its plan does not stop early |
| SystemRuns.RequestStaysHeld | kernel/src/mm/pmm.c:200-255 | over every run with all holders intact, a block handed out by kmalloc and not given back is in use with at least the bytes granted |
| SystemRuns.EachFrameOnce | kernel/src/mm/pmm.c:96-186 | in every state of every chain from boot a frame is busy if and only if it is a table, a page, reserved before boot, or lost, and it is only one of these; exactly as many frames are lost as tables could not be had |
| SystemMem.OthersByConfined | kernel/src/mm/vmm.c:61-143 | work on one space keeps the translations and page contents of all other live spaces and of all mapped heap and stack pages, with their rights |
| SystemMem.OthersByDropped | kernel/src/mm/vmm.c:39-59 | so does work on a space that is then released |
| SystemMem.MapEffectIs | kernel/src/mm/vmm.c:61-105 | mm_map_range leaves the rest of its own space as it was, and a space that had exactly its areas mapped still has, when no table was missing and no released VMA is left; the mapped pages outside the range keep their rights |
| SystemMem.ForkSince | kernel/src/mm/vmm.c:107-143 | the pages of a child are copies of the parent's as they were before the fork began, although heap and tables grew in between |
| SystemSpaces.AloneIsKept | kernel/src/mm/vmm.c:3-143 | over every run, a space that no operation addresses is still there with its areas, and each of its user pages leads to the same frame with the same contents and rights |
| SystemSpaces.CopiesOutliveParent | kernel/src/mm/vmm.c:107-143 | a fork that missed no table copies every page of a parent with exactly its areas mapped, and the child keeps the copies over every run that leaves it alone, also when the parent has been changed or released |
| SystemSpaces.ExactFromBoot | kernel/src/mm/vmm.c:61-143 | over every run from boot, in each state without a lost frame and with all holders intact, every live space has exactly the pages of its areas mapped |
| SystemSpaces.RightsInEveryState | kernel/src/mm/vmm.c:61-143 | in every state of every run, after failed operations too, a mapped page of a live space is a user page at all four levels, its entry is writable if and only if its area has VM_WRITE, and while all areas of the space have it the page can be written |
| SystemSpaces.KernelPageStays | kernel/src/mm/pmm.c:166-186 | over every run, a mapped heap page, and a mapped stack page until its stack is given back, keeps its frame and its contents and rights |
| SystemSpaces.ReadyFromBoot | kernel/src/mm/pmm.c:348-397 | over every run from boot, in each state without a lost frame every kernel stack has all its pages mapped, writable and not for user mode |
| SystemSpaces.GuardsUnmapped | kernel/src/mm/pmm.c:348-374 | in every state the guard page in front of each stack is unmapped in every space |
| System.MemorySystem.BlocksApart | kernel/src/mm/vmm.c:3-105 | along careful runs the mm_structs and VMAs of all live spaces and the blocks of all other callers are pairwise disjoint, headers included |
| System.MemorySystem.SpacesApart | kernel/src/mm/vmm.c:3-105 | no two live spaces share an mm_struct or a VMA, and no space has two in one place |
| System.MemorySystem.FreesAreMeant | kernel/src/mm/vmm.c:43-58 | when mm_free gives the blocks of a live space to kfree, each call meets a block still in use or one that an earlier call of the same mm_free has taken |
| HeapClash.SharedMmStruct | kernel/src/mm/pmm.c:238-245 | after boot with 37 free frames or more, mm_alloc twice, mm_free of the first space and mm_alloc twice end with two live spaces of different PML4s that have one mm_struct |
| HeapClash.ReleaseTakes | kernel/src/mm/pmm.c:238-245 | the release in that run takes the mm_struct of the live space behind it |
| HeapClash.ClashIsForeseen | kernel/src/mm/pmm.c:238-245 | the check on the operations alone says before the run that not every holder will keep his block |
| System.MemorySystem.OwnedPagesDiffer | kernel/src/mm/vmm.c:3-143 | user pages of any spaces, heap pages and stack pages lead to one frame only if they are the same page, and never to a table |
| System.MemorySystem.KernelHalfShared | kernel/src/mm/vmm.c:19-23 | every live space translates each heap and stack page as the kernel does, whenever it was mapped |
| UserMem.StoreReads | kernel/src/proc/proc.c:225-226 | a byte written through CR3 reads back, and every other byte of the space is unchanged |
| UserMem.StoreByte | kernel/src/proc/proc.c:225-226 | the same on the running machine; no page fault if and only if the page is mapped and all four entries allow writes; the fault changes nothing |
| UserMem.CopyToUser | kernel/src/proc/proc.c:226-226 | memcpy to user addresses writes exactly its bytes, within the pages of the range; it faults only where a page is not mapped or not writable |
| Elf.WritingIsConfined | kernel/src/proc/proc.c:206-226 | mapping and filling a segment changes nothing of another space |
| Elf.OtherBytesKept | kernel/src/proc/proc.c:206-226 | all bytes of the space outside the segment's pages read as before |
| Elf.LoadSegment | kernel/src/proc/proc.c:206-226 | one segment reads as the file's bytes followed by zeros, whatever p_flags say; its pages are mapped for user mode and writing, so in a space whose tables withhold nothing it succeeds whenever the frames cover the bound; with a fitting block the heap takes none |
| Elf.AllStorable | kernel/src/proc/proc.c:206-226 | because the area has VM_WRITE, the processor lets the kernel write every byte of the segment |
| Elf.NextSegment | kernel/src/proc/proc.c:203-229 | loading a page-disjoint segment leaves the loaded ones loaded and the later ones unmapped |
| Elf.LoadElf | kernel/src/proc/proc.c:171-232 | on success all PT_LOAD segments at once hold the file's bytes and zeros up to p_memsz; CR3 is restored on success and failure; a wrong magic number changes nothing; in a new space with enough frames only an empty segment can make it fail, and with heap room for the segments the heap takes no frame |
| Elf.LoadedRights | kernel/src/proc/proc.c:203-229 | in a space that was new, every byte of every loaded segment can be read and written from user mode at all four levels |
| Elf.HeadersRead | kernel/src/lib/elf.h:14-41 | the fields load_elf uses are read from where the two header structs have them: the entry point, the count and, for each program header, its kind, execute bit, offset, address and sizes |
| SchedSpec.ReachableInv | kernel/src/proc/sche.c:9-72 | in every state reached from boot the queue has no duplicates and only READY processes, never idle or current; a RUNNING process is idle or current; CR3 belongs to the current process |
| SchedSpec.StepInv | kernel/src/proc/sche.c:9-72 | every event keeps that invariant |
| SchedSpec.LosesCpuIff | kernel/src/proc/sche.c:9-72 | in every reachable state and for every event, the current process loses the CPU exactly when it exits, its slice runs out while somebody waits, or it yields without a running slice; then the head of the queue, or idle, gets it for a whole slice |
| SchedSpec.SliceProtects | kernel/src/proc/sche.c:22-31 | a running process other than idle loses the CPU if and only if it exits or the tick that ends its slice finds somebody waiting; a yield before that changes nothing |
| SchedSpec.KeepsItsSlice | kernel/src/proc/sche.c:22-31 | without an exit it stays current for its remaining slice of ticks, under any interleaving of forks and yields |
| SchedSpec.LosesItThen | kernel/src/proc/sche.c:22-31 | and the tick after that takes the CPU from it if and only if somebody waits by then |
| SchedSpec.ExitIsFinal | kernel/src/arch/interrupts.c:293-300 | an exit makes the process a zombie that is never current or queued again, over every run |
| SchedSpec.ChildRunsInItsSpace | kernel/src/proc/proc.c:314-375 | a fork adds one READY process with a new pid at the end of the queue; over every run, whenever it is current, CR3 is the page table it was given |
| SchedSpec.ZombiesStayDead | kernel/src/arch/interrupts.c:293-300 | a zombie is never dispatched again, over every run |
| SchedSpec.StaysRunningIff | kernel/src/proc/sche.c:16-48 | a step leaves a READY process as current exactly when a slice expires on an empty queue |
| SchedSpec.UncountedTicks | kernel/src/arch/timer.c:7-20 | from then on any number of ticks changes nothing |
| SchedSpec.YieldLoses | kernel/src/arch/interrupts.c:276-279 | and a yield of such a process loses it: no later run dispatches it |
| SchedWitness.LoneExpiryFromBoot | kernel/src/proc/sche.c:16-48 | a fork, a yield and ten ticks after boot, the current process is marked READY |
| SchedWitness.LostFromBoot | kernel/src/arch/interrupts.c:276-279 | and after its yield no run dispatches it |
| SchedSpec.WaitShrinks | kernel/src/proc/sche.c:9-72 | each step dispatches the waiting process or shrinks its wait by the tick, whatever the event |
| SchedSpec.RoundRobinBound | kernel/src/arch/timer.c:7-20 | the process at position k is dispatched within (k+1) slices of ticks, for every interleaving of forks, yields and exits |
| SchedSpec.RoundRobinExact | kernel/src/arch/timer.c:7-20 | with ticks alone it is dispatched exactly after the remaining slice plus k whole slices |
| Sched.Scheduler.Enqueue | kernel/src/proc/proc.c:370-371 | a new process becomes the last of the intrusive ready queue |
| Sched.Scheduler.Schedule | kernel/src/proc/sche.c:9-72 | the in-place dispatch step on the ring is the specified step, CR3 included |
| Sched.Scheduler.TimerCallback | kernel/src/arch/timer.c:7-20 | the tick on the running scheduler is the specified tick |
| Sched.Scheduler.SysYield | kernel/src/arch/interrupts.c:276-279 | likewise for yield |
| Sched.Scheduler.SysFork | kernel/src/proc/proc.c:314-375 | likewise for the scheduling part of fork: the child is READY, last in the queue, with a fresh pid, which is returned; a failed fork uses up the pid and returns -1 |
| Sched.Scheduler.SysExit | kernel/src/arch/interrupts.c:293-300 | likewise for exit |
| Isa.RunPushes | kernel/src/arch/switch.S:6-17 | a run of pushes lays the registers downwards and touches nothing else |
| Isa.RunPops | kernel/src/arch/switch.S:24-31 | a run of pops of distinct registers loads them upwards and keeps the others |
| Isa.Cpu.Execute | kernel/src/arch/switch.S:6-33 | executing a listing in place, instruction by instruction, has the listing's effect |
| Switch.EntryBuildsFrame | kernel/src/arch/isr.S:65-84 | the processor's and the stub's pushes build trap_frame_t exactly: each field holds its register, nothing outside the frame changes |
| Switch.ExitLoadsFrame | kernel/src/arch/isr.S:94-112 | the stub's pops and iretq load every register from the frame |
| Switch.SyscallRoundTrip | kernel/src/arch/isr.S:65-112 | a user program gets all its registers back after a system call except rax, which is the handler's result |
| Switch.SwitchOnce | kernel/src/arch/switch.S:6-33 | one switch saves the whole context below the caller's stack pointer, loads the other one and writes nothing else but the pcb's context field |
| Switch.SwitchContext | kernel/src/arch/switch.S:6-33 | the same for switch_to executed in place |
| Interleave.SwitchKeeps | kernel/src/arch/switch.S:6-33 | no switch touches the stack or context field of a third process |
| Interleave.StepKeepsGood | kernel/src/arch/switch.S:6-33 | every step keeps the stacks and contexts of all sleeping processes |
| Interleave.ComesBack | kernel/src/arch/switch.S:6-33 | over any interleaving, a resumed process has the saved registers, stack pointer, return address and stack words it left with |
| Interleave.ForkStack | kernel/src/proc/proc.c:344-366 | the child's stack gets the parent's trap frame with rax 0 and a context of which only the return address is written |
| Interleave.ChildReturnsFromFork | kernel/src/proc/entry.S:10-34 | after any interleaving the child reaches iretq with the parent's whole frame except rax = 0, whatever its context held |
| Bytes.WordRoundTrip | kernel/src/fs/ramfs.c:19-25 | little-endian words read back |
| Bytes.SetByteReads | kernel/src/proc/proc.c:225-226 | replacing a byte of a word changes that byte only |
| CStrings.StrtokR | kernel/src/lib/string.c:170-223 | the in-place tokenizer skips delimiters, returns the token's position, overwrites exactly the delimiter behind it and saves the position after it |
| CStrings.TokenizedStrings | kernel/src/lib/string.c:170-223 | afterwards the buffer holds the token and the rest of the string as two terminated strings |
| RamFsSpec.FindIs | kernel/src/fs/ramfs.c:102-108 | sibling names being distinct, the scan finds the one entry with that name |
| RamFsPaths.WalkFollows | kernel/src/fs/ramfs.c:94-121 | path resolution is following the components one by one, except that a path ending in two slashes must lead to a directory |
| RamFsPaths.ResolveFollows | kernel/src/fs/ramfs.c:72-122 | resolve_path follows the components of the path, cut to 127 characters, from the root if it is absolute and from the working directory otherwise, except that a path ending in two slashes must lead to a directory |
| RamFsPaths.EnterMeans | kernel/src/fs/ramfs.c:94-109 | one component: "." stays, ".." goes to the parent and stays in the root, any other name leads to the one entry of that name or nowhere |
| RamFsPaths.DotsResolve | kernel/src/fs/ramfs.c:72-100 | "." leads to the working directory and ".." to its parent, the root being its own |
| RamFsPaths.ResolveSteps | kernel/src/fs/ramfs.c:94-121 | a relative path behind a first component is resolved as it would be in the directory that the component names |
| RamFsWitness.SlashesAfterFile | kernel/src/fs/ramfs.c:110-117 | /init/ leads to the file, /init// nowhere |
| RamFsPaths.NamesLead | kernel/src/fs/ramfs.c:349-369 | following the names from the root to an inode leads to that inode |
| RamFsPaths.PrefixComponents | kernel/src/fs/ramfs.c:81-86 | a cut path has the components of the path up to a point and perhaps a proper prefix of the next |
| RamFsPaths.CwdPathResolvesIff | kernel/src/fs/ramfs.c:72-122 | from any working directory, the printed path of an inode resolves to it if and only if it has at most 128 characters |
| RamFsRuns.ResolveGives | kernel/src/fs/ramfs.c:72-122 | a resolved inode is in use; where only the last component is missing, the parent is a directory without an entry of that valid name |
| RamFsRuns.CreateKeepsInv | kernel/src/fs/ramfs.c:195-204 | creation uses the next inode and keeps the tree: parents are directories with smaller index, sibling names distinct |
| RamFsRuns.ResolveStable | kernel/src/fs/ramfs.c:312-328 | a creation never changes where an existing path leads |
| RamFsRuns.CreatedPathResolves | kernel/src/fs/ramfs.c:312-328 | the created path leads to the new inode, of the right kind, and other paths are stable |
| RamFsRuns.MadeAsAsked | kernel/src/fs/ramfs.c:190-227 | what mkdir has made is a directory that its path leads to and chdir enters; what open has created is a regular file; without O_CREAT nothing is created |
| RamFsRuns.CreateBit | kernel/src/fs/ramfs.c:190-204 | O_CREAT is the bit of weight 64 of the flags, whatever the others are |
| RamFsRuns.InitIsOk | kernel/src/fs/ramfs.c:124-185 | the initial tree meets the invariant |
| RamFsRuns.RunKeepsOk | kernel/src/fs/ramfs.c:190-337 | every run of mkdir, open, chdir, fork and process creation keeps the tree, and every working directory is a directory |
| RamFsRuns.PrintedDirectoryResolves | kernel/src/fs/ramfs.c:330-371 | in every reachable state, any process's printed directory leads any process back to it, if and only if it fits |
| RamFsWitness.LongPathDoesNotResolve | kernel/src/fs/ramfs.c:339-371 | five levels of 31-character names below the root, the printed path has 160 characters and does not lead back |
| RamFs.FileSystem.ResolvePath | kernel/src/fs/ramfs.c:72-122 | the buffer, the tokenizer and the table scans compute the specified resolution |
| RamFs.FileSystem.Mkdir | kernel/src/fs/ramfs.c:312-328 | table and result are the specified ones; the invariant is kept; the last component fits its buffer exactly when it has fewer than 32 characters |
| RamFs.FileSystem.CreateNode | kernel/src/fs/ramfs.c:195-204 | the table gets the new inode at the first unused place, or stays, and the invariant of all processes is kept |
| RamFs.FileSystem.Open | kernel/src/fs/ramfs.c:190-227 | inode table, handle table, descriptor table and result are the specified ones: which handle and descriptor are taken, that all others stay, and when it fails; open descriptors of all processes keep leading to handles of their own |
| RamFs.FileSystem.Close | kernel/src/fs/ramfs.c:267-273 | frees exactly the descriptor and its handle |
| RamFs.ViewsOpen | kernel/src/fs/ramfs.c:206-227 | after one process takes a free handle and a free descriptor, all processes have good descriptors and no two share a handle |
| RamFs.ViewsClose | kernel/src/fs/ramfs.c:267-273 | the same after a close |
| RamFs.FileSystem.Spawn | kernel/src/proc/proc.c:21-37 | a new process has no open file and the directory given to it, its parent's or the root, and the invariant of all processes is kept |
| RamFs.FileSystem.Chdir | kernel/src/fs/ramfs.c:330-337 | moves to the resolved directory, or fails and stays |
| RamFs.FileSystem.GetCwd | kernel/src/fs/ramfs.c:339-371 | both loops terminate; NULL exactly when the path and its NUL do not fit; otherwise the buffer holds the path, the NUL and its old rest |
| RamFs.FileSystem.GetDents | kernel/src/fs/ramfs.c:275-310 | writes the records of the next children that fit, in order, and moves the offset to the first that does not; a descriptor without an open directory changes nothing |
| Dirent.RecordReadsBack | usr/shell.c:106-118 | the decoder's reads of a record give its length, kind and name, whatever the padding holds |
| Dirent.ChildrenAreAll | kernel/src/fs/ramfs.c:288-306 | the scan lists exactly the children, each once, in inode order |
| Dirent.MarkedIffEntered | kernel/src/fs/ramfs.c:288-306 | an entry is marked as a directory if and only if chdir takes its name |
| Dirent.TakeIsNextChildren | kernel/src/fs/ramfs.c:286-308 | what one call takes and what is left make all remaining children |
| Dirent.TakeFillsTheRoom | kernel/src/fs/ramfs.c:286-308 | what one call takes fits the buffer, and it stops only at the end or at a child whose record no longer fits |
| Dirent.EmptyReadIsTheEnd | kernel/src/fs/ramfs.c:294-294 | with 56 bytes of room, a call that takes nothing has no child left |
| Dirent.ReadsListEveryChild | kernel/src/fs/ramfs.c:275-310 | for any sequence of buffer sizes, the calls up to an empty one with at least 56 bytes list every child exactly once |
| Ls.DecodeRecords | usr/shell.c:106-118 | the decoding loop yields exactly the encoded entries |
| Ls.CmdLs | usr/shell.c:92-121 | ls on a directory yields every child once, in inode order, with name and kind; without an argument those of the working directory; it succeeds exactly when the path leads somewhere and a handle and a descriptor are free; it changes no inode and no descriptor |

## Left out

- Vmm.MmFree: `kfree` of a header that an earlier `kfree` has unlinked changes nothing listed, which is what the code does as long as nobody has been given that memory; along careful runs nobody has (System.MemorySystem.FreesAreMeant), after a careless operation it may be otherwise.
- Vmm.Mm: the VMA list of an address space is a sequence of areas with the addresses of their blocks; the ring it is linked into is modelled for the heap and the ready queue.
- Heap.KernelHeap: the fields of headers, VMAs and mm_structs are fields of the model's classes, not bytes of the mapped frames. What the model says of the objects is claimed for the code along careful runs, where their blocks are disjoint (System.MemorySystem.BlocksApart); behind a careless operation two objects may lie in the same bytes, and the model does not follow what they then do to each other. Nobody is taken to write outside a block he holds. A write to a header in an unmapped page is a fault.
- Vmm.MapRange: covers user-half ranges whose pages were not mapped before. The overlap that an unaligned `SYS_BRK` produces, which replaces frames, is not modelled. A failed call leaves the VMA linked although its block is freed, as in the code; what the list leads through once that block is handed out again is not modelled.
- System.MemorySystem.ForkSpace: the PCB's own block and the copy of the trap frame are not part of it; the stack contents are in Interleave.ForkStack and the queue in Sched.Scheduler.SysFork.
- System.MemorySystem.Run: operations on ranges that overlap a listed area, or beyond the stack window, are skipped. What processes write to their own pages between the operations is not part of the chain (it is UserMem.StoreByte). After the first operation that is not careful the states go on to describe the model; the code may then do something else, because two objects can lie in the same bytes.
- Elf.LoadElf: the file's headers and segments are taken to lie inside the file, segments in the user half, page-disjoint, with p_filesz at most p_memsz; the code checks none of these. A write to an unmapped page ends the run, as the page fault does.
- Heap.KernelHeap.Valid: physical memory is taken to be at most the 512 GB of the heap's window.
- Kstack.KernelStacks.KstackInit: holds while the stack window of 512 GB is not used up; the code does not check this.
- Teardown.FreeRecursive: recursion depth and the kernel stack it needs are not modelled.
- System.Boot: the kernel's own image, HHDM and identity mappings of `paging_init` are not built; the model goes from the kernel's empty PML4 to the heap and the first stack.
- UserMem.StoreByte: CR0.WP is taken to be set, as the Limine boot protocol hands over and the kernel leaves it, so that the kernel's own writes to user addresses obey the R/W bits. The processor's accessed and dirty bits are not modelled.
- TLB flushes, CR3 side effects, port I/O, the GDT, the IDT and the TSS; CR3 is a plain variable.
- `total_runtime`, the global tick count and console messages.
- Machine words wrap in the code; addresses in the model are unbounded. Only the request size of `kmalloc` near 2^64 is bounded by an assumption, in HeapRuns.OneExpansionSuffices and in the last-block clause of Heap.KernelHeap.Kmalloc.
- Interleave.Good: kernel stacks and pcb context fields are disjoint and 8-byte aligned, and a process running kernel code writes no other process's stack or context field.
- Switch.SyscallRoundTrip: the C handler is any change of state that keeps the frame but for rax and returns with the stack pointer it was called with.
- Kernel threads that share a parent's address space; `ref_count` is never used by the code.
- Parent and child relations, `wait4`, and reuse of a dead process's control block.
- RamFs.FileSystem.Mkdir: what happens after a last component of 32 or more characters has run over the name buffer is not modelled, only when it does; the same holds for RamFs.FileSystem.Open and Ls.CmdLs, and the runs of RamFsRuns are those whose names fit.
- File contents: `ramfs_read`, `ramfs_write`, sizes and the pages of file data.
- `ramfs_stat`, `ramfs_fstat`, `do_execve` and the stub system calls.
- The user-space `malloc`, the keyboard, the framebuffer console, fonts and `kprintf`.
