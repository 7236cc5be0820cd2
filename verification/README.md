# Torex OS kernel: memory, lists, scheduling, paging and output

A Dafny 4.11 model of the core of the Torex OS kernel, with proofs. `dafny verify dfyconfig.toml` checks it.

- **Page allocator.** `Buddy` describes the buddy allocator as a value: one descriptor array, ten free lists,
  ten 32-bit counters, and allocation and freeing with their recursion over orders. `BuddyTheorems` proves what
  holds over every run. `BuddyAllocator` is the allocator that changes descriptors, lists and counters in place;
  each of its methods leaves memory in the state the function describes. `BuddyAsWritten` is freeing with the list
  removal the code has. `Boot` sorts the firmware memory map and builds the first blocks; `Kfree` finds a block's
  head from any address in it.
- **Slabs.** `Slab` is one block whose free cells are threaded through their own memory; `SlubAllocator` is the
  allocator of one size class on top of the page allocator; `SlubPool` is the seven of them together, from a size
  to a cell and from an address back to it; `SlubLists` relates the two lists of a class to the links they are made
  of; `SlubRuns` has the runs in which freeing a cell goes wrong. `Ilog2` holds the bit scans and size classes.
- **Memory primitives.** `MemCopy`, `MemSet` and `StrLen` on bytes and little-endian words (`Words`). A window is
  an array of exactly the bytes the caller named, so an index proved in range is an access proved to stay inside;
  addresses appear only for alignment.
- **Lists.** `IntrusiveList` is the linked list on the heap, as written, refining a sequence.
- **Scheduling.** `Scheduler` is the round-robin scheduler, the state queues, the saved contexts and the timer as
  one machine, with theorems over every run; `SchedulerSystem` is the same code changing its fields in place.
- **Paging and output.** `PageTable` builds the kernel's tables and walks them as the processor does (Intel SDM
  Vol. 3A, section 4.5). `RawOstream` is the buffered stream.

`Bits`, `Sequences` and `Wrappers` hold powers of two, alignment and bitwise operators, sequences without
repetition, and the type of an absent result.

Seven things the code does not do as intended, each with an input and its exact condition:

- The list's own removal takes a node off correctly if and only if it is not the last of three or more
  (`IntrusiveList.ListBase.PopBackNode`, `PopNode`). Everything that removes from the middle inherits this:
  `BuddyAsWritten.FreeAsWrittenIff`, `Scheduler.StepAsWrittenIff` and `SlubAllocator.SizeClass.Free` say exactly
  when, and `BuddyAsWritten.MergeBreaksTheList`, `Scheduler.SwitchBreaksTheQueue`, `Scheduler.DequeueBreaksTheList`
  and `SlubRuns.FreeInThirdRetired` are runs from the start that get there. `Scheduler.ReadyRunsAreExact` and
  `SlubAllocator.SizeClass.ReturnIsExact` are the cases where it never happens.
- Freeing a cell right after the allocation that exhausted its block takes the block off a list it is not on yet,
  through a null link (`SlubAllocator.SizeClass.Free`, on the links `SlubLists.FailuresOnTheLinks`; run
  `SlubRuns.FreeRightAfterExhausting`).
- A block that was ever exhausted and retired never gives its pages back, whatever calls follow
  (`SlubRuns.Perform`; run `SlubRuns.EmptyRetired`).
- The walk that builds the page allocator leaves its descriptor array when it ends above the last usable region
  (`Boot.MakeBuddy`, `Boot.SizedDescriptorsReachIff`, `Boot.SizedTooSmall`).
- A chunk that ends with its region is lost (`Boot.ChunkLostAtRegionEnd`, `Boot.WholeChunkLost`).
- The pages given to the page directory are too few unless their count is a power of two
  (`PageTable.DirectoryFitsIff`, `PageTable.DirectoryTooSmall`), and the loop then writes past them
  (`PageTable.MakeKernelPte`).
- A page-table entry keeps what its page held in the fields the kernel does not write
  (`PageTable.KernelAddressMapsBack`, `PageTable.StaleBitFaults`, `PageTable.StaleSizeBit`).

## Model

| member | source | states |
|---|---|---|
| Bits.BuddyArithmetic | kernel/include/memory/buddy.h:8-17 | for an aligned index, XOR with the block size gives the other half of the parent block and AND of the two gives the parent's start |
| Bits.ClearLowestBitStaysInside | kernel/src/memory/mm.cpp:231-235 | clearing the lowest set bit of an index strictly inside an aligned block moves down and never below the block's start |
| Buddy.Allocate | kernel/src/memory/buddy.cpp:5-36 | on success the block was entirely free, exactly its pages leave the free memory, no descriptor of a page in use changes and every invariant holds again; on failure nothing changes and every list of that order and above is empty |
| Buddy.DeallocateBlock | kernel/src/memory/buddy.cpp:58-65 | with the intended list removal, exactly the block's pages join the free memory, descriptors of pages still in use are untouched, and every invariant holds, coalescing included |
| Buddy.TryMergeAndGet | kernel/src/memory/buddy.cpp:37-57 | the merging loop ends in a state where no two free buddies of one order are left apart, lists, flags and wrapping counters agreeing |
| Buddy.BuddyFacts | kernel/include/memory/buddy.h:8-17 | the buddy of a managed block is managed, so the flag test on it never leaves the descriptor array |
| BuddyTheorems.Run | kernel/src/memory/buddy.cpp:5-65 | every run of legal allocations and frees keeps the global invariant: aligned disjoint blocks covering the region, tails inside, lists and counters exact, no mergeable pair |
| BuddyTheorems.FreeByFlag | kernel/src/memory/buddy.cpp:37-65 | a page is on the free lists if and only if the head of its block is flagged free |
| BuddyTheorems.FreeRunInOneBlock | kernel/src/memory/buddy.cpp:37-57 | an aligned run of free pages always lies inside one listed block of at least its order |
| BuddyTheorems.AllocationIsComplete | kernel/src/memory/buddy.cpp:5-26 | allocation of an order fails if and only if no naturally aligned run of that many managed pages is entirely free |
| BuddyTheorems.AllocateTakesAFront | kernel/src/memory/buddy.cpp:5-36 | the block handed out is the front of the first list, from the order asked for on, that is not empty |
| BuddyTheorems.FreeBlocksAreMaximalRuns | kernel/src/memory/buddy.cpp:37-65 | a block is on a free list if and only if it is a maximal aligned run of free pages |
| BuddyTheorems.CanonicalForm | kernel/src/memory/buddy.cpp:37-65 | two states with the same free pages hold the same free blocks at every order and the same counters, whatever calls led there |
| BuddyTheorems.AllFreeMeansAllMaximal | kernel/src/memory/buddy.cpp:37-57 | when nothing is in use every free block has the largest order |
| BuddyTheorems.FreeUndoesAllocate | kernel/src/memory/buddy.cpp:5-65 | freeing the block just allocated restores every free list as a set, every counter, every flag and every head descriptor |
| BuddyTheorems.FreePagesAreCounted | kernel/include/memory/buddy.h:34-35 | the sizes of the listed blocks add up to the number of free pages, so no page is on two lists |
| BuddyTheorems.CountersAreExact | kernel/include/memory/buddy.h:34-35 | on fewer than 2^32 pages every counter is the length of its free list |
| BuddyTheorems.PagesAreConserved | kernel/src/memory/buddy.cpp:5-65 | over every run, free pages plus pages held by callers is constant |
| BuddyAsWritten.FreeAsWrittenIff | kernel/src/memory/buddy.cpp:37-65 | freeing with the list's own removal leaves the state of Buddy.DeallocateBlock if and only if no buddy it merges with is the last of three or more on its list; otherwise a list is left broken |
| BuddyAsWritten.ExactFreeAbove | kernel/src/memory/buddy.cpp:37-57 | whether that is so can be read off the state before the call: merging further down changes no list and no buddy further up |
| BuddyAsWritten.MergeBreaksTheList | kernel/lib/include/datastruc/list.h:208-219 | from any state with three whole chunks and no half chunk free, a run as written of six allocations and three frees that breaks no list and after which one more free does |
| BuddyAllocator.Allocator.AllocateWithOrder | kernel/src/memory/buddy.cpp:5-26 | the in-place recursion returns and leaves exactly what Buddy.Allocate says |
| BuddyAllocator.Allocator.SplitBig | kernel/src/memory/buddy.cpp:27-36 | the in-place split is the model's split |
| BuddyAllocator.Allocator.TryMerge | kernel/src/memory/buddy.cpp:37-57 | the in-place merge recursion leaves exactly what Buddy.TryMergeAndGet says |
| BuddyAllocator.Allocator.Deallocate | kernel/src/memory/buddy.cpp:58-65 | the in-place free leaves exactly what Buddy.DeallocateBlock says |
| Boot.InsertionSort | kernel/lib/include/algo/sort.h:64-86 | the map ends sorted by base, a permutation of what it was, and still without overlaps if it had none |
| Boot.MarkPages | kernel/src/memory/pageframe.cpp:8-15 | a head with type and order, tail flags on the rest of the block, nothing else touched |
| Boot.MakeBuddy | kernel/src/memory/mm.cpp:65-107 | on a sorted map the walk terminates, stops at the first chunk boundary no region holds, and leaves blocks that satisfy every allocator invariant; it fails exactly when no region holds the start, and marks pages outside the descriptor array exactly when that does not reach a visited chunk |
| Boot.WalkedIsValid | kernel/src/memory/mm.cpp:77-106 | the descriptors and lists left by any number of walked chunks meet the buddy invariant |
| Boot.Init | kernel/src/memory/mm.cpp:171-185 | for any non-overlapping map in any order, with the same two failures, a visited 2 MB chunk is on the largest free list and marked free if and only if one region of kind 1 holds the chunk and the byte after it, and else marked reserved; no other descriptor is written |
| Boot.LastUsableIsLast | kernel/src/memory/mm.cpp:22-35 | the array is sized by the end of the last region of kind 1 |
| Boot.SizedDescriptorsReachIff | kernel/src/memory/mm.cpp:22-46 | with the array sized by the end of the last usable region, it reaches every visited chunk if and only if the walk ends at or below that end |
| Boot.SizedTooSmall | kernel/src/memory/mm.cpp:22-46 | a map with a reserved region behind the last usable one for which it does not |
| Boot.ChunkLostAtRegionEnd | kernel/include/memory/memscan.h:57-60 | a chunk wholly inside a usable region is not used if and only if the region ends where the chunk does |
| Boot.WholeChunkLost | kernel/src/memory/mm.cpp:73-100 | a map of one usable region of 2 MB whose only chunk is not used |
| Kfree.FindHead | kernel/src/memory/mm.cpp:228-235 | from any page of any block, the bit-clearing search ends at that block's head, and reports whether it started there |
| Kfree.KFree | kernel/src/memory/mm.cpp:228-260 | for a pointer to any byte of a managed page, whatever its bits from 47 on, the outcome is decided by the type of the block pointed into; memory is returned exactly for the first page of a kernel block |
| Kfree.KernelPointerTranslates | kernel/include/memory/address.h:85-92 | the kernel's pointer to a physical address below 2^47 is translated back to that address |
| Kfree.HeadOfBlock | kernel/src/memory/mm.cpp:231-236 | all pages of a block lead to the same head |
| IntrusiveList.ListBase.PushFrontNode | kernel/lib/include/datastruc/list.h:165-179 | the links spell the old sequence with the node in front; only the node and the old head are touched |
| IntrusiveList.ListBase.PushBackNode | kernel/lib/include/datastruc/list.h:181-195 | the links spell the old sequence with the node at the end |
| IntrusiveList.ListBase.PopFrontNode | kernel/lib/include/datastruc/list.h:196-207 | the links spell the sequence without its first node, which leaves with a null back link |
| IntrusiveList.ListBase.PopBackNode | kernel/lib/include/datastruc/list.h:208-219 | the links spell the shorter sequence if and only if at most two nodes were there; otherwise what is left linked how |
| IntrusiveList.ListBase.PopNode | kernel/lib/include/datastruc/list.h:124-132 | removal from any position is right if and only if it is not the last of three or more nodes |
| IntrusiveList.ListBase.FrontOfAnother | kernel/lib/include/datastruc/list.h:124-132 | removing from a list the first node of another one joins its neighbours through a null back link |
| IntrusiveList.ListBase.OwnNode | kernel/lib/include/datastruc/list.h:124-132 | removing a node of the list itself never does |
| SlubLists.FailuresOnTheLinks | kernel/src/memory/slub.cpp:82-87 | for an exhausted block, the outcome NullLink is exactly that removal of a foreign front node on the links, and ListBroken exactly the removal of the last of three or more |
| Slab.CellsDoNotOverlap | kernel/src/memory/slub.cpp:50-57 | cells at different indices are at least one object apart |
| Slab.SlubBlock.MakeSlabs | kernel/src/memory/slub.cpp:44-57 | afterwards the offsets visit every cell once in address order, and the block is in order if and only if `free_offset` was zero, its counter right if and only if `in_use` was |
| Slab.SlubBlock.AllocInOneBlock | kernel/src/memory/slub.cpp:6-26 | hands out a cell that was not live, or nothing exactly when all are; the chain, the live set and the counter stay in step |
| Slab.SlubBlock.FreeInOneBlock | kernel/src/memory/slub.cpp:27-43 | the cell returns to the front of the chain through one word of its own memory; everything else is kept |
| Slab.SlubBlock.OwnerWrites | kernel/src/memory/slub.cpp:6-13 | whatever the owner writes into a live cell breaks no link |
| Slab.SlubBlock.CellsAreConserved | kernel/src/memory/slub.cpp:6-57 | free and live cells together are all cells of the block |
| SlubAllocator.SizeClass.Alloc | kernel/src/memory/slub.cpp:59-80 | hands out the first free cell of the first block that has one, else of a new block, no other block's cells changing and no page being taken but the new block's; fails if and only if every block is exhausted and the page allocator has no block; terminates |
| SlubAllocator.SizeClass.Free | kernel/src/memory/slub.cpp:81-96 | the cell is no longer live and the next one to be handed out, and nothing but its first word is written; the page allocator frees the block's pages if and only if that was the last live cell of a block never retired, and is left alone otherwise; the write through a null link happens exactly for an exhausted block not yet on the full list, which is then the first of the partial list, and the broken list exactly for the last of three or more retired blocks |
| SlubAllocator.GivenBackIsReturned | kernel/src/memory/slub.cpp:91-95 | a slab's pages given back are free again, exactly those |
| SlubAllocator.SizeClass.ReturnIsExact | kernel/src/memory/slub.cpp:91-93 | a block whose pages go back is the first of its list, so this removal is always carried out |
| SlubRuns.FreeRightAfterExhausting | kernel/src/memory/slub.cpp:81-88 | a run from a class without blocks: the 128th allocation and then a free end in the write through a null link |
| SlubRuns.FreeInThirdRetired | kernel/src/memory/slub.cpp:59-88 | a run that uses up three blocks and then frees a cell of the third ends in a broken list, unless the pages run out first |
| SlubRuns.EmptyRetired | kernel/src/memory/slub.cpp:81-96 | a run that uses up a block, opens the next and returns all 128 cells of the first: no cell of it is live and its pages are still a slab's |
| SlubRuns.Perform | kernel/src/memory/slub.cpp:59-96 | over every sequence of calls by a caller that returns only cells it holds, every block once retired stays on its class's lists and keeps its pages, up to a call that breaks a list |
| SlubRuns.SlabFromFreeList | kernel/include/memory/pageframe.h:30-60 | a descriptor popped from the front of a free list reads zero in both slab fields |
| SlubPool.KMallocSmall | kernel/src/memory/mm.cpp:218-227 | the cell is at least as large as the request, of the smallest class that can hold it, and was not live; all seven classes stay in order and no retired block is lost; it fails if and only if that class's blocks are exhausted and the page allocator has none |
| SlubPool.KFreeCell | kernel/src/memory/mm.cpp:228-253 | from the kernel's pointer to any live cell the search ends at the cell's block and the cell is freed in it, its pages going back exactly in the outcome that says so, all seven classes staying in order and no retired block being lost, unless a list is broken |
| SlubPool.CellInBlock | kernel/src/memory/mm.cpp:230-235 | the address of a cell lies on a page of its block |
| SlubPool.LiveCellsDoNotOverlap | kernel/src/memory/slub.cpp:6-26 | any two live cells, of one class or of two, have no byte address in common |
| SlubPool.MakePool | kernel/src/memory/mm.cpp:108-115 | seven classes without blocks are in order on any state of the page allocator, which is where every run begins |
| SlubAllocator.PagesHeldThroughTake | kernel/src/memory/mm.cpp:205-208 | taking pages for a new slab leaves every slab's pages its own, and nobody held them before |
| SlubAllocator.PagesHeldThroughReturn | kernel/src/memory/mm.cpp:209-213 | giving one slab's pages back leaves every other slab's pages its own |
| Ilog2.Clz64 | kernel/lib/include/math/ilog2.h:22-54 | for every nonzero 64-bit word, 2^(63-r) <= word < 2^(64-r); 64 for zero |
| Ilog2.Ctz64 | kernel/lib/include/math/ilog2.h:55-69 | the largest power of two that divides a nonzero word |
| Ilog2.ComputeLog2 | kernel/lib/include/math/ilog2.h:74-76 | the position of the highest set bit |
| Ilog2.SmallestClassThatFits | kernel/src/memory/mm.cpp:224-226 | a request of 1 to 2048 bytes gets the least of the seven sizes that holds it |
| Ilog2.ClassSizes | kernel/src/memory/mm.cpp:108-115 | the seven sizes are 32 to 2048, doubling |
| Ilog2.PickClass | kernel/src/memory/mm.cpp:224-226 | the index computed with the bit scans is that class |
| Ilog2.SlabOrder | kernel/src/memory/slub.cpp:72-75 | the page block asked for holds exactly 128 cells of the class |
| Ilog2.OrderCoversIffPowerOfTwo | kernel/include/memory/pageframe.h:71-73 | the order rounds down: the block covers the bytes asked for if and only if they are a power of two |
| MemCopy.MemCpy | kernel/lib/src/stringutil.cpp:93-205 | for every length and both alignments the destination window equals the source window, all accesses inside the windows |
| MemCopy.CopyShifted1 | kernel/lib/src/stringutil.cpp:137-153 | the loop that merges words 24 and 8 bits apart copies in order, with aligned 32-bit accesses only |
| MemCopy.CopyShifted2 | kernel/lib/src/stringutil.cpp:154-169 | the same for 16 and 16 bits |
| MemCopy.CopyShifted3 | kernel/lib/src/stringutil.cpp:170-186 | the same for 8 and 24 bits |
| MemSet.MemSet | kernel/lib/src/stringutil.cpp:5-91 | every byte of the window is set, for every length and alignment |
| MemSet.FillMiddle | kernel/lib/src/stringutil.cpp:66-85 | the remainder the 32-byte loop drops was already filled, and its 64-bit stores are aligned |
| Words.HasZeroFindsZero | kernel/lib/src/stringutil.cpp:225-228 | the word test is nonzero if and only if one of the eight bytes is zero |
| StrLen.StrLen | kernel/lib/src/stringutil.cpp:230-242 | the distance to the first zero byte, for every start alignment, reading nothing past the aligned word that holds it |
| Scheduler.Rotate | kernel/src/process/simple_scheduler.cpp:11-26 | one switch makes the stopped task ready and the next one running, keeps every task in exactly the queue of its state, and sets the timer to five interrupts from now |
| Scheduler.Step | kernel/src/process/process.cpp:67-116 | every event keeps the machine's invariant, the timer bound count < expired <= count + 5 included |
| Scheduler.StepAsWrittenIff | kernel/src/process/process.cpp:95-100 | a step with the list's own removals is the step described if and only if the task dequeued, or the task that goes on, is not the last of three or more on its list |
| Scheduler.ReadyRunsAreExact | kernel/src/process/simple_scheduler.cpp:11-26 | with at least two tasks listed and all but the running one ready, every switch of every steady run is carried out as described |
| Scheduler.ChangeStateKeepsQueues | kernel/src/process/process.cpp:95-100 | a state change moves the task between the two queues concerned and no others |
| Scheduler.ContextIsPreserved | kernel/src/process/process.cpp:67-90 | a task that loses the CPU and next gets it back finds exactly the frame it lost it with, over every run |
| Scheduler.BuiltTaskStartsWithItsContext | kernel/src/process/process.cpp:23-27 | a task built at any time finds, at its first switch, exactly the context it was built with, over every run |
| Scheduler.IdleStartsWithItsContext | kernel/src/process/scheduler.cpp:17-23 | and so does the idle task, from the start |
| Scheduler.QuantumBound | kernel/src/drivers/timer/pit.cpp:83-96 | over every run, interrupts are bounded by five per switch |
| Scheduler.FifthInterruptSwitches | kernel/src/drivers/timer/pit.cpp:83-97 | after a switch and without a yield, the first four interrupts leave the running task alone and the fifth switches to the next one |
| Scheduler.CursorFollowsSwitches | kernel/src/process/simple_scheduler.cpp:44-52 | at every point of every steady run the running task is as many places round the list from the first one as there have been switches, by tick or yield |
| Scheduler.EachTaskOncePerRound | kernel/src/process/simple_scheduler.cpp:44-52 | over as many consecutive switches as there are tasks on the list, each task is switched to at exactly one event |
| Scheduler.SwitchesFollowTheList | kernel/src/process/simple_scheduler.cpp:44-52 | for every number d of switches in the run there is a point after exactly d of them, and there the task d places further round the list is current |
| Scheduler.EveryTaskRuns | kernel/src/drivers/timer/pit.cpp:83-96 | with n tasks enqueued each becomes current within 5n timer interrupts, however tasks yield |
| Scheduler.EnqueuedTaskTurn | kernel/src/process/simple_scheduler.cpp:27-35 | a task just enqueued is switched to after exactly the tasks from the running one to the end of the list |
| Scheduler.StartIsConsistent | kernel/src/process/scheduler.cpp:17-52 | scheduling starts in a state that meets the invariant, the first task running with its context, the idle task ready with its own saved, and five interrupts to go |
| Scheduler.SwitchBreaksTheQueue | kernel/src/process/process.cpp:95-100 | from the start, a legal run of eight events whose last switch breaks a state queue |
| Scheduler.DequeueBreaksTheList | kernel/src/process/simple_scheduler.cpp:36-43 | from the start, a legal run of three events whose dequeue breaks the scheduler's list |
| SchedulerSystem.System.Tick | kernel/src/process/simple_scheduler.cpp:11-17 | the in-place tick is the machine's switch |
| SchedulerSystem.System.YieldCpu | kernel/src/process/simple_scheduler.cpp:18-26 | the in-place yield is the same switch |
| SchedulerSystem.System.TopHalf | kernel/src/drivers/timer/pit.cpp:83-91 | the interrupt handler is the machine's interrupt event |
| PageTable.MakeKernelPte | kernel/src/memory/mm.cpp:125-170 | every entry of the three tables, written fields and fields kept; refuses exactly memory ending at 512 GB or above, and runs past the directory exactly when its entries do not reach the end of memory |
| PageTable.TruncatedAddress | kernel/include/arch/pagetable.h:85-87 | storing a kernel-virtual table address in the 28-bit field keeps exactly the physical page number, below 2^40 |
| PageTable.KernelAddressMapsBack | kernel/src/memory/mm.cpp:144-169 | on every processor of 32 to 52 physical address bits, with or without NXE and 1 GB pages, the 4-level walk maps p in the kernel half to p for every p below the end of memory if and only if what the pages held in the fields never written is clean in the three entries on the way, or the processor has 1 GB pages and a stale bit 7 happens to make the right one |
| PageTable.MemoryIsWritable | kernel/src/memory/mm.cpp:144-169 | on the words in memory, the write bit is set in all three entries on the way to every address below the end of memory |
| PageTable.BuildWritesOnly | kernel/src/memory/mm.cpp:144-169 | every field the kernel does not write, and every entry beyond those for memory, is as the page held it |
| PageTable.StaleBitFaults | kernel/src/memory/mm.cpp:144-151 | concrete tables with one stale bit, bit 63 of a directory entry, through which address 0 faults with NXE clear and is reached with NXE set |
| PageTable.StaleSizeBit | kernel/src/memory/mm.cpp:152-157 | with a directory at 1 GB and one stale bit, bit 7 of its second pointer, every address of the second gigabyte maps back if and only if the processor has 1 GB pages |
| PageTable.DirectoryFitsIff | kernel/src/memory/mm.cpp:128-133 | the block allocated for n pages of bytes holds all entries if and only if n is a power of two or memory ends on that boundary |
| PageTable.DirectoryTooSmall | kernel/src/memory/mm.cpp:128-151 | a concrete memory size for which the loop would run past the pages allocated |
| RawOstream.Perform | kernel/lib/src/raw_ostream.cpp:17-159 | over any sequence of writes and flushes, emitted output followed by the buffer equals the concatenation of everything written, and after a flush all of it is emitted |
| RawOstream.Stream.Write | kernel/lib/src/raw_ostream.cpp:103-133 | any string, any buffer fill: contents grow by exactly the string |
| RawOstream.Stream.PutChar | kernel/lib/include/raw_ostream.h:48-56 | contents grow by exactly the character |
| RawOstream.Stream.Flush | kernel/lib/include/raw_ostream.h:26-30 | everything written has been emitted |
| RawOstream.FormatToBuffer | kernel/lib/src/raw_ostream.cpp:5-15 | the digits end up right-aligned in the buffer, and their number is returned |
| RawOstream.DecimalReadsBack | kernel/lib/src/raw_ostream.cpp:5-15 | the decimal text parses back to the number |
| RawOstream.DecimalIsCanonical | kernel/lib/src/raw_ostream.cpp:5-15 | only decimal digits, and a leading zero only for zero |
| RawOstream.UsualDigits | kernel/lib/src/raw_ostream.cpp:5-48 | the digit characters are 0 to 9 and a to f, the most significant first |
| RawOstream.HexReadsBack | kernel/lib/src/raw_ostream.cpp:36-48 | sixteen digits that parse back to the 64-bit number |

## Left out

- Buddy.DeallocateBlock: on the intended removal, like Buddy.TryMergeAndGet, through which it goes.
- Buddy.TryMergeAndGet: the free lists are sequences with the intended removal; BuddyAsWritten.FreeAsWrittenIff says exactly when the code's own removal (kernel/lib/include/datastruc/list.h:213) agrees, and BuddyAsWritten.MergeBreaksTheList is a run after which it does not.
- BuddyAllocator.Allocator.TryMerge: likewise; the in-place lists are sequences, not linked nodes.
- Scheduler.ChangeStateKeepsQueues: on the intended removal; Scheduler.StepAsWrittenIff says exactly when the code's own agrees, and Scheduler.SwitchBreaksTheQueue is a run after which it does not.
- Scheduler.Step: dequeue and state changes use the intended removal, exact by Scheduler.StepAsWrittenIff (a task dequeued must not be the last of three or more; Scheduler.DequeueBreaksTheList). `SwitchContext` on yield is taken as an atomic save and load; FPU state, stacks and interrupt locks are not part of the model. The 64-bit tick counters are unbounded.
- SchedulerSystem.System.DequeueTask: the intended removal on a sequence, with the same exact condition and witness as Scheduler.Step.
- SlubAllocator.SizeClass.Free: after the outcomes NullLink and ListBroken nothing is said about the two lists.
- SlubAllocator.SizeClass.Revive: the removal from the full list is the intended one; Free calls it only when the block is not the last of three or more.
- SlubAllocator.SizeClass.DropBlock: the removal from the partial list is the intended one, which SlubAllocator.SizeClass.ReturnIsExact shows to be the code's own.
- SlubAllocator.SizeClass.Alloc: the retiring part of its tail recursion is a method of its own, and a new block is used directly instead of through one more call.
- SlubPool.KMallocSmall: `kmalloc` above 2048 bytes hands out a descriptor address of a rounded-down order, so no size promise holds and it is not modelled.
- SlubPool.KFreeCell: the block and class a slab descriptor names are parameters, required to be the ones at that page; a pointer that is not the start of a live cell is not caught by the code.
- SlubRuns.FreeRightAfterExhausting: the loop that exhausts the block belongs to the run, not to the kernel; the same holds of the loops and of the caller's record of its cells in SlubRuns.FreeInThirdRetired, SlubRuns.EmptyRetired and SlubRuns.Perform.
- Slab.SlubBlock.MakeSlabs: memory is seen as 32-bit words, and the descriptor overlay as the two fields it zeroes.
- Boot.MakeBuddy: starts from the 2 MB aligned address it is given; what the code overwrites after leaving its descriptor array is not part of the model, and neither is `mark_kernel_area` (which advances by one descriptor per block) nor the room that rounding the array's end up to 2 MB adds. Addresses are unbounded, physical ones never wrapping 64 bits.
- Kfree.KFree: only for pointers into the pages handed to the allocator at boot; what `mark_kernel_area` writes below them is not part of this model.
- PageTable.KernelAddressMapsBack: for data accesses. Memory and tables are required to lie in the processor's physical address space, and the tables below 2^40, which memory of at most 512 GB implies. Pages that held a pointer above 2^40 which the processor accepts are excluded, since it leads to memory the kernel did not set up.
- PageTable.MakeKernelPte: the allocation of its pages and `size_of_mapping` are parameters. What the code overwrites after running past its directory is not part of the model.
- RawOstream.Stream.WriteSigned: excludes the smallest 64-bit number, whose negation is undefined.
- IntrusiveList: iterators and `insert_front_node`, which calls methods the class does not have.
- Interrupt races in the allocators, drivers, ACPI and descriptor-table setup, panics beyond their outcome, and the other containers.
