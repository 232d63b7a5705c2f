# Chaff kernel verification

A Dafny 4.11 model of the core of Chaff, a 32-bit single-processor kernel written in C, with proofs
of what it is meant to guarantee. The kernel runs with interrupts off and a thread gives up the
processor only at explicit blocking calls, so protocols are modelled as atomic steps between those
points and data structures as classes, arrays and maps that methods update in place.

`dafny verify dfyconfig.toml` checks everything.

## Layout

| files | models |
|---|---|
| `AddressSpaces`, `AddressSpaceRuns`, `MemoryManager` | copy-on-write address spaces over reference-counted frames, and their refinement of eager copying |
| `Regions` | the sorted region list of a memory context |
| `Blocks`, `BlockProtocol`, `BlockOverwrites`, `BlockWrites` | the block cache under every interleaving of readers, writers and overwriters of cached blocks, and what each of them gets |
| `Masks`, `BlockBuffers` | buffer transfers through the cache as reads and writes of a flat device |
| `HashTables`, `Lists` | the chained hash table and the circular lists at heap level |
| `Scheduling`, `SchedulingRuns`, `SchedulingOutcomes` | run queue, wait queues, sleep queue and reaper as steps over whole runs, and what becomes of each caller |
| `ThreadLists`, `KernelScheduler` | the same on the rings of list entries embedded in the threads |
| `SlabGeometry`, `Slabs`, `SlabRuns`, `SlabSafety`, `SlabAllocator`, `SlabExamples` | the slab allocator |
| `VirtualMemory`, `Physical` | the virtual-range and physical-page allocators |
| `LazyFpu` | lazy FPU switching |
| `Common` | optional values, machine constants, 32-bit addition, sums over sequences, powers of two |

A protocol is a value-level state with its steps and invariant. Address spaces, the scheduler, the
slab allocator, the kernel's virtual area and the FPU also have a class whose methods follow the C
code and are proved to carry out exactly those steps. The block cache is modelled twice, and the two
are not tied to each other: `BlockProtocol`, `BlockOverwrites` and `BlockWrites` have the interleaved steps and
no class, `BlockBuffers` the loops and the offset arithmetic for one caller at a time. "Any run" below means any sequence of enabled
steps from a state that satisfies the invariant; the boot lemmas give such states.

## Model

| member | source | states |
|---|---|---|
| `AddressSpaceRuns.RunRefinesEagerCopying` | kernel/src/mm/region.c:68-140 | after any run of stores, faults, context creations, clones and deletions and region changes, every context sees exactly the memory it would see had each clone copied every page into a private map, pages never touched reading as the byte 0; the eager run is legal whenever the real one is, and its region changes are written out on the list rather than taken from the code |
| `AddressSpaceRuns.StepKeepsInv` | kernel/src/mm/pageFault.c:52-104 | every step keeps reference counts equal to the present entries naming a frame plus table and kernel references, writable entries alone on their frame, and every entry inside a region that allows it |
| `AddressSpaceRuns.StepRefines` | kernel/src/mm/region.c:68-233 | each step is enabled in the eager system too and matches its step there |
| `AddressSpaceRuns.ReferenceCountsExact` | kernel/src/mm/pageFault.c:64-98 | a frame named by some page-table entry has a reference count equal to the number of entries naming it over all contexts, and exactly one if any of them is writable |
| `AddressSpaceRuns.FaultIsInvisible` | kernel/src/mm/pageFault.c:52-104 | neither the copy-on-write nor the demand-zero branch changes what any context sees |
| `AddressSpaceRuns.StoreRefines` | kernel/src/mm/pageFault.c:64-89 | a store through a writable entry changes one byte of one context and nothing any other context sees |
| `AddressSpaceRuns.StoreNeedsAtMostOneFault` | kernel/src/mm/pageFault.c:52-104 | a store into a region succeeds at once or after one fault if and only if the region is writable |
| `AddressSpaceRuns.ReadNeedsAtMostOneFault` | kernel/src/mm/pageFault.c:91-103 | an address of a region with an access flag can be read at once or after one fault |
| `AddressSpaceRuns.FaultFillsWithZeros` | kernel/src/mm/pageFault.c:91-103 | a fault on an absent page maps a frame whose every byte is 0, writable exactly if the region is |
| `AddressSpaceRuns.StoreIsRead` | kernel/src/mm/pageFault.c:64-89 | the byte stored is read back at that address of that context, and every other address of every context reads as before |
| `AddressSpaceRuns.CloneReadsParent` | kernel/src/mm/region.c:68-140 | a clone reads at every address what its parent reads, and nobody reads anything else than before |
| `AddressSpaceRuns.NewContextReadsZero` | kernel/src/mm/region.c:44-65 | a new context reads the byte 0 at every address |
| `AddressSpaceRuns.UnmappedReadsZero` | kernel/src/mm/pageFault.c:91-103 | so does every address that is not mapped |
| `AddressSpaceRuns.CutReadsZero` | kernel/src/mm/region.c:415-429 | every address that a shrinking region gives up reads 0 |
| `AddressSpaceRuns.RemovedReadsZero` | kernel/src/mm/region.c:463-473 | so does every address of a region that is deleted |
| `AddressSpaceRuns.CloneRefines` | kernel/src/mm/region.c:68-140 | sharing all pages read-only gives the child the parent's memory and leaves the parent's as it was |
| `AddressSpaceRuns.CutRefines` | kernel/src/mm/region.c:415-429 | unmapping the pages cut off a region wipes exactly those pages of exactly that context |
| `AddressSpaceRuns.TeardownReturnsEveryFrame` | kernel/src/mm/region.c:161-219 | once all contexts are deleted every frame is back to the kernel's own references: nothing leaked, nothing freed twice |
| `AddressSpaceRuns.BootHolds` | kernel/src/mm/region.c:44-65 | the state with no user context satisfies the invariant |
| `MemoryManager.Manager.InitContext` | kernel/src/mm/region.c:44-65 | fails exactly if no frame is free; otherwise the new context is exactly the blank one of the model, with one frame taken for its directory |
| `MemoryManager.Manager.ShareTable` | kernel/src/mm/region.c:111-124 | the inner loop makes exactly one table's entries read-only and raises each frame's count by the entries naming it |
| `MemoryManager.Manager.CloneTable` | kernel/src/mm/region.c:103-133 | one turn of the outer loop shares one table and copies it into a newly allocated one, failing exactly if there is a table and no free frame |
| `MemoryManager.Manager.Clone` | kernel/src/mm/region.c:68-140 | fails exactly if fewer frames are free than one for the directory and one for each table of the parent; otherwise the loops over directory and tables carry out exactly the clone step |
| `MemoryManager.Manager.DeleteTable` | kernel/src/mm/region.c:184-204 | one turn of the outer loop lowers the counts of one table's frames and frees the table |
| `MemoryManager.Manager.Delete` | kernel/src/mm/region.c:161-219 | refused exactly for the directory in CR3, otherwise exactly the deletion step |
| `MemoryManager.Manager.UnmapPage` | kernel/src/mm/pageMapping.c:192-237 | removes one entry and one reference to its frame, or does nothing |
| `MemoryManager.Manager.UnmapRange` | kernel/src/mm/region.c:423-428 | the loop unmaps exactly the pages of the range |
| `MemoryManager.Manager.ShrinkRegion` | kernel/src/mm/region.c:404-460 | shrinking a region is exactly the shrink step |
| `MemoryManager.Manager.ExtendRegion` | kernel/src/mm/region.c:404-460 | growing a region where that leaves room gives exactly that region the new length, or refuses it for its alignment or end, and is exactly the growth step |
| `MemoryManager.Manager.DeleteRegion` | kernel/src/mm/region.c:463-473 | deleting a region unmaps all its pages and takes it off the list, exactly as the model's step |
| `MemoryManager.Manager.CreateRegion` | kernel/src/mm/region.c:305-401 | accepted exactly when the range is valid and apart from all regions and the end-of-list comparison passes; the list is then one longer, has exactly this start, length and flags at the place found and the old regions before and after it; otherwise nothing changes |
| `MemoryManager.Manager.MapZeroed` | kernel/src/mm/pageMapping.c:133-189 | maps one page to a frame whose every byte is 0, allocating a page table only if there is none, and fails exactly if that needs a frame and none is free |
| `MemoryManager.Manager.DemandFault` | kernel/src/mm/pageFault.c:91-103 | gives the page a frame that was free and whose every byte is now 0, failing exactly if there are too few for the page and a missing table |
| `MemoryManager.Manager.CopyOnWriteFault` | kernel/src/mm/pageFault.c:59-90 | a shared frame is copied to a free one, failing exactly if there is none; a sole one is made writable in place |
| `MemoryManager.Manager.HandleFault` | kernel/src/mm/pageFault.c:32-124 | SIGSEGV exactly if no region has the address, or the page is present and is writable or its region is not; handled faults are exactly the model's fault step; SIGSEGV is raised only when no fault step is possible and changes nothing; the kernel panics exactly if the fault needs more frames than are free |
| `Regions.Find` | kernel/src/mm/region.c:261-293 | the early exit returns the unique region containing the address exactly when some region contains it, so exactly the region an address belongs to |
| `Regions.Create` | kernel/src/mm/region.c:305-401 | finds the place in order, or refuses; accepted regions keep the list aligned, ordered, separated and below the kernel |
| `Regions.CollidesIsOverlap` | kernel/src/mm/region.c:296-302 | on valid ranges the collision test is overlap or contact, wrap-around included |
| `Regions.NeighboursDecide` | kernel/src/mm/region.c:347-383 | checking the two neighbours is equivalent to checking every region |
| `Regions.InsertKeepsWellFormed` | kernel/src/mm/region.c:347-397 | inserting between separated neighbours keeps the list well formed |
| `Regions.InsertedList` | kernel/src/mm/region.c:343-397 | the list gains exactly the region with the start, length and flags asked for, and keeps the others in order |
| `Regions.InsertedHome` | kernel/src/mm/region.c:261-397 | afterwards an address in the new range belongs to the new region and every other address to the region it belonged to before, or to none |
| `Regions.ShrinkKeepsWellFormed` | kernel/src/mm/region.c:404-429 | shrinking keeps the list well formed |
| `Regions.GrowthKeepsWellFormedIff` | kernel/src/mm/region.c:430-459 | growth tests the old length against the next region, so the list stays well formed if and only if the length is refused by another test or the new end leaves room |
| `Regions.GrowthSetsLength` | kernel/src/mm/region.c:430-459 | an aligned length that ends at or below the kernel becomes the length of the region, any other leaves the list as it was |
| `Regions.GrowthCanOverlap` | kernel/src/mm/region.c:446-455 | two concrete regions, the lower of which grows over the upper |
| `Regions.RemoveKeepsWellFormed` | kernel/src/mm/region.c:463-473 | removing a region keeps the list well formed |
| `BlockProtocol.StepKeepsInv` | kernel/src/io/bcache.c:159-252 | every step between blocking points, uncached whole-block overwrites included, keeps reference counts equal to the threads holding or waiting, one device call a block, waiters only while a call is in progress, and errored blocks out of the table |
| `BlockProtocol.RunKeepsInv` | kernel/src/io/bcache.c:159-431 | the same over any interleaving of these steps |
| `BlockProtocol.RunKeepsCacheCoherent` | kernel/src/io/bcache.c:159-231 | under any interleaving, with failures and torn writes, a tabled OK block equals the device and one being written differs only inside the range in flight |
| `BlockProtocol.OneCallPerDeviceBlock` | kernel/src/io/bcache.c:170-226 | at most one read or write is in progress on a device block, even across a failed cache block and its successor |
| `BlockProtocol.SleeperHasWaker` | kernel/src/io/bcache.c:213-225 | a thread asleep on a block always has another thread whose device call will wake it |
| `BlockProtocol.FreedExactlyByLastUser` | kernel/src/io/bcache.c:234-252 | a block is freed exactly when its last user leaves it in error, and never while someone waits on it |
| `BlockProtocol.BootHolds` | kernel/src/io/bcache.c:76-96 | an empty cache satisfies the invariant |
| `BlockOverwrites.RunInOrderIff` | kernel/src/io/bcache.c:313-431 | any number of threads may be inside overwrites of cached blocks, which take no reference and give one back, waiting for a busy block and during the device call, between any steps of the others: the cache is in order in every state of a run if and only if every step is harmless |
| `BlockOverwrites.MoveKeepsOrderIff` | kernel/src/io/bcache.c:358-413 | one step: it does harm exactly if a thread with a reference leaves a block in error as the last such thread while an overwriter is there, or an overwriter leaves while a thread with a reference is there, or leaves a block in error as its last user |
| `BlockOverwrites.OverwriteEndsInOrderIff` | kernel/src/io/bcache.c:396-413 | the one overwrite in progress ends well if and only if its device call succeeds and no one else uses the block when the call returns |
| `BlockOverwrites.OthersKeepOrderIff` | kernel/src/io/bcache.c:374-385 | while it waits or writes, a step of another thread does harm if and only if it frees the block |
| `BlockOverwrites.OverwriteOfFailedBlockHarms` | kernel/src/io/bcache.c:380-384 | woken to a block in error it never ends well |
| `BlockOverwrites.HarmlessRunIsCoherent` | kernel/src/io/bcache.c:313-431 | over a run of harmless steps cache and device agree |
| `BlockOverwrites.StartKeepsOrder` | kernel/src/io/bcache.c:358-394 | starting such an overwrite, on an idle or a busy block, does no harm by itself |
| `BlockOverwrites.OverwriteFreesHeldBlock` | kernel/src/io/bcache.c:400-411 | a run after which a failed overwrite frees the block under a thread that is reading it |
| `BlockOverwrites.LateReaderLosesReference` | kernel/src/io/bcache.c:396-411 | a run in which no one uses the block when the overwrite starts and the device call succeeds, yet a reader that came in meanwhile is left without its reference |
| `BlockOverwrites.WaitingOverwriterLosesBlock` | kernel/src/io/bcache.c:374-377 | a run in which the block is freed under an overwriter that waits for it to be read |
| `Blocks.SpliceBytes` | kernel/src/io/bcache.c:394-394 | bytes written into a block are at the place given, and all others are as they were |
| `BlockWrites.WriteReachesDevice` | kernel/src/io/bcache.c:388-413 | whatever other threads do in between and however the bytes reach the device, a write, partial or whole, that succeeds leaves its bytes at its place of the device block and the rest of the device as it was when the device call began; the block stays cached and OK |
| `BlockWrites.AskedIsKept` | kernel/src/io/bcache.c:372-385 | a writer that waits, once or repeatedly, for a busy block still writes the bytes and the place it was called with |
| `BlockWrites.FailedWriteStaysInRange` | kernel/src/io/bcache.c:400-411 | a write that fails has changed the device within its range at most, and its block is no longer found |
| `BlockWrites.PlainRunIsHarmless` | kernel/src/io/bcache.c:313-431 | these results hold of every interleaving without overwrites of cached blocks; with such overwrites, of every run in which they do no harm |
| `BlockWrites.ReaderSeesDevice` | kernel/src/io/bcache.c:159-231 | a reader holds the device block that it asked for, whether it missed, hit or waited, and while the block is OK its bytes are the device's |
| `BlockWrites.PartialWriteExample` | kernel/src/io/bcache.c:388-413 | 9 written at place 1 of a block holding 5 and 6 leaves 5 and 9 on the device |
| `Masks.PowerOfTwoIff` | kernel/src/io/bcache.c:80-84 | the test on the block size accepts exactly the powers of two |
| `Masks.LowMask` | kernel/src/io/bcache.c:280-280 | masking with size - 1 keeps exactly the low bits |
| `Masks.HighMask` | kernel/src/io/bcache.c:165-165 | masking with the 32-bit complement keeps exactly bits k to 31 |
| `Masks.AlignIsRightIff` | kernel/src/io/bcache.c:165-165 | the rounded offset is the offset's own block if and only if the offset fits in 32 bits |
| `Masks.BlockOf` | kernel/src/io/bcache.c:280-286 | block and place within it always add up to the offset's low 32 bits |
| `BlockBuffers.CreateCache` | kernel/src/io/bcache.c:76-96 | NULL exactly when the size is not a power of two, otherwise an empty cache |
| `BlockBuffers.BlockCache.Read` | kernel/src/io/bcache.c:159-231 | a reference to the block, read from the device if it was not cached; on failure the table is unchanged |
| `BlockBuffers.BlockCache.ReadPart` | kernel/src/io/bcache.c:268-306 | one turn leaves every cached block and reference count as it was and copies the device's bytes |
| `BlockBuffers.BlockCache.ReadBuffer` | kernel/src/io/bcache.c:255-310 | for every 64-bit offset, length and power-of-two size the loop ends; what it copied is the device's bytes at the offsets taken to 32 bits, all of them on success, whichever device calls or buffer checks fail |
| `BlockBuffers.LowReadIsExact` | kernel/src/io/bcache.c:255-310 | below 2^32 those bytes are exactly the device's range |
| `BlockBuffers.BlockCache.WritePart` | kernel/src/io/bcache.c:333-416 | one turn: on success block and device get the bytes, on a device error the block leaves the table and is freed or not as its count says, otherwise nothing changes |
| `BlockBuffers.BlockCache.WriteAll` | kernel/src/io/bcache.c:333-427 | the loop ends; on success exactly the range is replaced, on failure a prefix is and only the next block's part may be torn; below 2^32 cache and device agree afterwards either way, and after any successful transfer they agree if and only if the bytes whose offsets do not fit in 32 bits are what the device had at the cut offsets |
| `BlockBuffers.BlockCache.WriteBuffer` | kernel/src/io/bcache.c:313-431 | the same with the empty and the unsupported request |
| `BlockBuffers.WriteTurnAgrees` | kernel/src/io/bcache.c:392-404 | below 2^32 a completed turn keeps every cached block equal to the device, read first, cached or overwritten whole |
| `BlockBuffers.TurnAgrees` | kernel/src/io/bcache.c:333-416 | so does a turn whose device calls fail |
| `BlockBuffers.HighWriteAgreesIff` | kernel/src/io/bcache.c:351-399 | past 2^32 the block written still agrees if and only if the device already had those bytes at the masked offset |
| `BlockBuffers.PicturedAgreesIff` | kernel/src/io/bcache.c:333-427 | a cache that holds each byte of the transfer at the offset cut to 32 bits agrees with the device if and only if the device has those bytes there too |
| `BlockBuffers.TurnPictures` | kernel/src/io/bcache.c:333-404 | every completed turn at any 64-bit offset, of a cached, a read or a whole new block, adds its bytes to that picture and changes nothing else in it |
| `BlockBuffers.HighWriteExample` | kernel/src/io/bcache.c:351-399 | one byte written at 2^32 makes the cached block at 0 wrong |
| `BlockBuffers.FreedByLastHolderIff` | kernel/src/io/bcache.c:358-411 | a failed turn frees the block exactly when nobody else holds it, if and only if it is not a whole-block write of a cached block with at most one holder |
| `BlockBuffers.FreedByLastHolderExample` | kernel/src/io/bcache.c:358-411 | a failed whole-block write of a cached block: without a holder the block is lost, with one it is freed under it |
| `HashTables.HashTable.Find` | kernel/src/htable.c:211-225 | returns the item the finite map holds for the key, or null |
| `HashTables.HashTable.FindInBucket` | kernel/src/htable.c:87-107 | the walk along one chain decides the key |
| `HashTables.HashTable.Insert` | kernel/src/htable.c:110-147 | refused exactly if the key is there, otherwise the map gains exactly that binding; the table keeps its size up to a load of seven eighths and is else 1024 buckets at first and twice as many later |
| `HashTables.HashTable.RemoveKeyItem` | kernel/src/htable.c:150-208 | by key or by identity: succeeds exactly if the item is there, the map loses exactly that key and the item's link is cleared |
| `HashTables.HashTable.Resize` | kernel/src/htable.c:30-70 | relinking every chain in place leaves the map as it was, with each item once and in the bucket its hash selects |
| `HashTables.HashTable.MoveAll` | kernel/src/htable.c:30-70 | the two loops move every item, none lost, doubled or misplaced |
| `HashTables.MoveChain` | kernel/src/htable.c:47-59 | one old chain is emptied into the new buckets while it is being walked |
| `HashTables.Relink` | kernel/src/htable.c:52-55 | one item goes to the front of its new bucket and no other link changes |
| `HashTables.HashTable.Reserve` | kernel/src/htable.c:229-250 | from a table with buckets, the size becomes the first doubling that reaches the count |
| `HashTables.ReserveEndsIff` | kernel/src/htable.c:242-245 | the doubling loop ends if and only if there is a bucket or nothing to reach |
| `HashTables.ReserveFallsShortIff` | kernel/src/htable.c:229-250 | storing the reserved number of items still makes the table grow if and only if that number lies in the top eighth below the doubling |
| `HashTables.ReserveFallsShortExample` | kernel/src/htable.c:229-250 | 1000 items on 1024 buckets |
| `HashTables.LoadIsSevenEighths` | kernel/src/htable.c:80-84 | a table must grow exactly if eight times the items are more than seven times the buckets |
| `HashTables.ComputeHash` | kernel/src/htable.c:275-288 | the loop computes the fold over the key's bytes, sign extension included |
| `HashTables.HashValues` | kernel/src/htable.c:275-288 | four values of the hash, among them one that sign extension changes |
| `HashTables.SortedAfterPush` | kernel/src/htable.c:141-144 | putting an item in front of its bucket keeps all items placed |
| `HashTables.SortedAfterCut` | kernel/src/htable.c:174-187 | so does taking one out |
| `Lists.Init` | kernel/include/list.h:63-67 | an empty ring |
| `Lists.IsEmpty` | kernel/include/list.h:79-82 | true exactly for the ring of the head alone |
| `Lists.AddBefore` | kernel/include/list.h:97-103 | the ring gains the node before the item, at the end of the list for the head |
| `Lists.AddAfter` | kernel/include/list.h:113-119 | the ring gains the node after the item |
| `Lists.Delete` | kernel/include/list.h:148-152 | the ring loses the node, whose own pointers stay |
| `Lists.DeleteInit` | kernel/include/list.h:159-163 | and the node becomes an empty ring |
| `Lists.DeleteEach` | kernel/include/list.h:241-246 | a loop with the safe iterator that unlinks what it visits visits every item once, in order, and empties the list |
| `Lists.RotatedRing` | kernel/include/list.h:34-44 | a ring may be read from any of its nodes |
| `Lists.RingsApart` | kernel/include/list.h:34-44 | a ring shares no node with a ring that its head is not on |
| `ThreadLists.NeverOnTwoLists` | kernel/include/process.h:198-198 | lists threaded through the same entries have no thread in common |
| `ThreadLists.SchedLists.OnOneListOnce` | kernel/src/process/reaper.c:89-89 | the run queue and the reaper's list share schedQueueEntry, and no thread is on both, or on one of them twice |
| `ThreadLists.SchedLists.PushRun` | kernel/src/process/scheduler.c:203-203 | linking the entry of a thread on neither list appends it to the run queue and leaves the reaper's ring intact |
| `ThreadLists.SchedLists.PopRun` | kernel/src/process/scheduler.c:50-60 | takes off the oldest thread, or none exactly if the ring is empty |
| `ThreadLists.SchedLists.PushReaping` | kernel/src/process/reaper.c:89-89 | the same entry appends the thread to the reaper's list and leaves the run queue intact |
| `ThreadLists.SchedLists.PopReaping` | kernel/src/process/reaper.c:50-54 | takes off the first zombie, or none exactly if the ring is empty |
| `ThreadLists.WaitQueues.OnOneQueue` | kernel/include/process.h:231-231 | no thread is on two wait queues |
| `ThreadLists.WaitQueues.Join` | kernel/src/process/waitqueue.c:30-30 | appends the thread to one queue; all other rings, and the empty rings of threads that wait nowhere, stay as they are |
| `ThreadLists.WaitQueues.Pop` | kernel/src/process/waitqueue.c:48-52 | takes off the oldest waiter and leaves its entry an empty ring |
| `ThreadLists.WaitQueues.StillQueued` | kernel/src/process/waitqueue.c:36-36 | ListEmpty on a thread's own entry is false exactly if the thread is on some queue |
| `ThreadLists.WaitQueues.Leave` | kernel/src/process/waitqueue.c:35-39 | the thread is off whichever queue it was still on, the others keep their order |
| `SchedulingRuns.StepKeepsInv` | kernel/src/process/scheduler.c:46-204 | every step keeps woken running threads current or queued exactly once, blocked and zombie threads unqueued, wait and sleep entries matched to their threads, and the reaper runnable while it has work |
| `SchedulingRuns.RunKeepsInv` | kernel/src/process/scheduler.c:46-204 | the same over any trace |
| `SchedulingRuns.BootHolds` | kernel/src/process/process.c:73-98 | the state after boot satisfies the invariant |
| `SchedulingRuns.WaitReturnsFalseIffWoken` | kernel/src/process/waitqueue.c:27-42 | a waiter that runs on reports an interruption exactly if no wake removed it, even if a signal made it runnable first, and leaves no entry behind |
| `SchedulingRuns.WakeOnePicksOldest` | kernel/src/process/waitqueue.c:45-61 | WakeOne wakes exactly the waiter that has waited longest and clears its interrupted mark |
| `SchedulingRuns.OnlyWakesMarkWoken` | kernel/src/process/waitqueue.c:45-75 | no other step counts as a wake |
| `SchedulingRuns.SleepEntryFreedOnce` | kernel/src/timer.c:137-163 | TimerSleep sees an interruption exactly if the timer has not consumed its entry, and afterwards the entry is unlinked and freed exactly once |
| `SchedulingRuns.TickWakesOnlyTheDue` | kernel/src/timer.c:268-294 | the interrupt consumes an entry if and only if every entry is due, so never before its end time |
| `SchedulingRuns.DrainIsAllOrNothing` | kernel/src/timer.c:112-134 | because the queue is latest first, either all sleepers are woken or none |
| `SchedulingRuns.DueSleeperWaits` | kernel/src/timer.c:268-294 | a sleeper due at 10 that is not woken at 10, behind one due at 20 |
| `SchedulingRuns.StepIsFifo` | kernel/src/process/scheduler.c:46-99 | a schedule runs the head of the queue and everything else only appends |
| `SchedulingRuns.StaysInLine` | kernel/src/process/scheduler.c:46-204 | over any trace a queued thread moves up one place for each schedule and by nothing else |
| `SchedulingRuns.RunsOnItsTurn` | kernel/src/process/scheduler.c:46-204 | a thread at position k is run by the schedule after exactly k others |
| `SchedulingRuns.ReapAllEffect` | kernel/src/process/reaper.c:42-72 | the reaper's loop reaps exactly the listed threads, in order |
| `SchedulingOutcomes.BlockedAsAsked` | kernel/src/process/scheduler.c:126-144 | a wait, block or sleep that does not return at once leaves the thread interruptible exactly if it asked for that |
| `SchedulingOutcomes.AtOnceChangesNothing` | kernel/src/process/scheduler.c:129-134 | one that returns at once leaves every thread and queue as it was |
| `SchedulingOutcomes.WaiterIsLast` | kernel/src/process/waitqueue.c:27-42 | a waiter is the last of the queue it named and on no other |
| `SchedulingOutcomes.SignalWakesIff` | kernel/src/process/scheduler.c:147-204 | a signal makes a blocked thread runnable if and only if its block is interruptible, and marks it interrupted |
| `SchedulingOutcomes.WakeUpWakes` | kernel/src/process/scheduler.c:147-204 | any other wake-up makes it runnable at the end of the queue and unmarked, whatever its state |
| `SchedulingOutcomes.WakeUpLeavesOthers` | kernel/src/process/scheduler.c:147-204 | a wake-up changes no other thread |
| `SchedulingOutcomes.SignalWakesAsAsked` | kernel/src/process/scheduler.c:126-204 | over any run, however long the thread is blocked, a signal wakes it if and only if its call asked for an interruptible block |
| `SchedulingOutcomes.UninterruptibleWaitNeedsWake` | kernel/src/process/waitqueue.c:27-75 | over any run a thread that waits uninterruptibly runs on only after a wake has taken it off its queue, and reports no interruption |
| `SchedulingOutcomes.YieldRequeues` | kernel/src/process/scheduler.c:102-123 | the head of the queue runs and the thread that yields is last; alone it runs on |
| `SchedulingOutcomes.ExitLeavesZombie` | kernel/src/process/process.c:638-679 | a thread that exits is a zombie, is not queued to run, and is listed for the reaper exactly if nobody will wait for it |
| `SchedulingOutcomes.SpawnedIsNew` | kernel/src/process/process.c:171-196 | a new thread has not started and is on no queue |
| `SchedulingOutcomes.SleepEndsAsAsked` | kernel/src/timer.c:137-146 | the entry of a sleep has the time of the call plus the duration as its end |
| `SchedulingOutcomes.ClockMoves` | kernel/src/timer.c:248-267 | an interrupt advances the clock by its ticks |
| `SchedulingOutcomes.NoSleepEndsEarly` | kernel/src/timer.c:137-294 | over any run an entry goes only once the clock has reached the end asked for, or when its own thread was interrupted |
| `KernelScheduler.Kernel.Perform` | kernel/src/process/scheduler.c:46-204 | whatever step is enabled in whatever reachable state, the code's relinking of entries carries out exactly that step of the runs above and leaves every ring intact |
| `KernelScheduler.InvAdmits` | kernel/src/process/scheduler.c:102-204 | in every reachable state each operation finds the entries it links without a check unlinked, so that no list is ever corrupted |
| `KernelScheduler.Kernel.OnOneRing` | kernel/include/process.h:198-231 | while the rings are intact a thread is never on the run queue and the reaper's list at once, nor on two wait queues |
| `KernelScheduler.Kernel.constructor` | kernel/src/process/process.c:73-98 | empty rings with the idle thread and the reaper enrolled satisfy the invariant |
| `KernelScheduler.Kernel.ProcDoSchedule` | kernel/src/process/scheduler.c:46-99 | unlinks the first entry of the ring and switches to its thread, or to the idle thread; the rings stay intact and hold what the schedule step says |
| `KernelScheduler.Kernel.ProcYield` | kernel/src/process/scheduler.c:102-123 | ListHeadInit on the current thread's entry disturbs no ring, and relinking it at the back is the yield step |
| `KernelScheduler.Kernel.ProcYieldBlock` | kernel/src/process/scheduler.c:126-144 | returns at once exactly if interruptible with a signal pending; else the thread is left interruptible or uninterruptible as asked and the rings stay intact as the block step says |
| `KernelScheduler.Kernel.ProcWakeUpSig` | kernel/src/process/scheduler.c:147-204 | links only an entry that is on no list, whatever the thread's state, and is the wake step |
| `KernelScheduler.Kernel.ProcWaitQueueWait` | kernel/src/process/waitqueue.c:27-42 | links the thread and blocks it, interruptibly exactly if asked; with a signal pending linking and unlinking restores every ring |
| `KernelScheduler.Kernel.ProcWaitQueueWakeOne` | kernel/src/process/waitqueue.c:45-61 | unlinks the first waiter from one ring and links it on another, as the wake of the oldest waiter; reports whether there was one |
| `KernelScheduler.Kernel.ProcWaitQueueWakeAll` | kernel/src/process/waitqueue.c:64-75 | the loop empties the ring and wakes every waiter in order |
| `KernelScheduler.Kernel.AddTimerToQueue` | kernel/src/timer.c:112-134 | the walk inserts the entry before the first that ends earlier |
| `KernelScheduler.Kernel.TimerSleep` | kernel/src/timer.c:137-163 | queues an entry and blocks, or frees it at once if a signal is pending |
| `KernelScheduler.Kernel.TimerInterrupt` | kernel/src/timer.c:248-294 | the loop consumes due entries from the front, waking each sleeper into the run queue's ring |
| `KernelScheduler.Kernel.RunOn` | kernel/src/process/waitqueue.c:32-41 | a resumed waiter leaves the queue exactly if ListEmpty on its own entry says that it is still on it, a resumed sleeper frees its entry exactly if it was interrupted |
| `KernelScheduler.Kernel.ReapThread` | kernel/src/process/process.c:682-713 | a zombie on no ring is freed with its entries and no ring passes through them |
| `KernelScheduler.Kernel.ReaperThread` | kernel/src/process/reaper.c:42-72 | the loop unlinks and frees every listed zombie once, then blocks |
| `KernelScheduler.Kernel.ProcIntReaperAdd` | kernel/src/process/reaper.c:75-92 | a thread that is no zombie is refused; for a zombie the entry that served the run queue links it on the reaper's list, and the reaper is made runnable |
| `KernelScheduler.Kernel.ProcExit` | kernel/src/process/process.c:638-679 | the zombie goes to the reaper's ring if nobody will wait for it and never to the run queue |
| `KernelScheduler.Kernel.ProcCreateThread` | kernel/src/process/process.c:171-196 | a new thread's entries, in memory no ring passes through, are on no list |
| `SlabGeometry.ChoosePages` | kernel/src/mm/slab.c:162-190 | the loop picks the least page count with eight objects and little waste, else the least wasteful with eight, else eight pages |
| `SlabGeometry.GeometryFits` | kernel/src/mm/slab.c:147-196 | for every aligned size below 32 KB the objects fit clear of the header, at least one a slab, eight exactly up to 4096 bytes, two exactly up to 16384 |
| `SlabGeometry.GeometryIsTight` | kernel/src/mm/slab.c:147-158 | objects, header and wastage fill the pages exactly, and no further object would fit |
| `SlabGeometry.BestPagesUnique` | kernel/src/mm/slab.c:162-190 | the rule names one page count |
| `SlabGeometry.GeometryExamples` | kernel/src/mm/slab.c:162-190 | the page counts and objects of four sizes, one for each case of the rule |
| `SlabGeometry.BitScanReverse` | kernel/src/mm/slab.c:74-74 | the count of leading zeros brackets the number between powers of two |
| `SlabGeometry.CacheIndex` | kernel/src/mm/slab.c:69-84 | MemKAlloc's index is that of the smallest class that fits, for every size from 1 to 8192 |
| `SlabGeometry.ClassSizes` | kernel/src/mm/slab.c:47-57 | the classes go from 8 to 8192 bytes, each twice the one before |
| `SlabGeometry.AlignWord` | kernel/src/mm/slab.c:125-125 | rounds up to the next multiple of four |
| `Slabs.ObjectsDisjoint` | kernel/src/mm/slab.c:255-270 | two different objects never overlap, in one slab or in two |
| `Slabs.ObjectsAligned` | kernel/src/mm/slab.c:124-125 | every object starts on a word boundary |
| `Slabs.PageLeadsToSlab` | kernel/src/mm/slab.c:248-253 | the page table leads from any byte of an object to its slab |
| `Slabs.HeadersClear` | kernel/src/mm/slab.c:233-246 | a header inside a slab overlaps no object, and the header of a large slab is a live object of its own |
| `SlabRuns.PopKeepsInv` | kernel/src/mm/slab.c:305-325 | taking the first object of a chain keeps chains, lists, page table and headers in order |
| `SlabRuns.PopMakesLive` | kernel/src/mm/slab.c:305-311 | exactly one object becomes live, and it was not |
| `SlabRuns.PushKeepsInv` | kernel/src/mm/slab.c:372-391 | giving an object back keeps everything in order, and exactly that object stops being live |
| `SlabRuns.WriteKeepsInv` | kernel/src/mm/slab.c:286-329 | whatever callers write into their objects, the free chains stay intact |
| `SlabRuns.GrowKeepsInv` | kernel/src/mm/slab.c:227-283 | adding a slab keeps everything in order and touches no live object's status |
| `SlabRuns.DropKeepsInv` | kernel/src/mm/slab.c:400-413 | dropping an unused slab and unlinking it keeps everything in order |
| `SlabSafety.RunKeepsInv` | kernel/src/mm/slab.c:286-392 | over any run every slab's free chain is free of repetition, ends in MEM_SLAB_END and has objectsPerSlab - activeObjs links, and lists, page table and headers are exact |
| `SlabSafety.RunKeepsObject` | kernel/src/mm/slab.c:286-392 | over any run of the allocator and all callers a live object keeps its place, size and contents until its own holder writes to it or frees it |
| `SlabSafety.StepKeepsObject` | kernel/src/mm/slab.c:286-392 | the same for one step |
| `SlabSafety.AllocIsSafe` | kernel/src/mm/slab.c:286-329 | whichever of the four ways MemSlabAlloc takes, the result is a new object of the right cache, is no header or descriptor, and nothing live changed |
| `SlabSafety.ListsExact` | kernel/src/mm/slab.c:313-325 | the full list holds exactly the slabs without a free object; with two objects a slab or more the empty list holds exactly the unused slabs and the partial list the rest |
| `SlabSafety.EmptiedSlabIsListedIff` | kernel/src/mm/slab.c:376-388 | freeing a slab's last live object puts it on the empty list if and only if slabs hold two objects or more |
| `SlabExamples.EmptiedSlabIsNotListed` | kernel/src/mm/slab.c:376-388 | a run from boot: a cache of 20480-byte objects, one to a slab as MemSlabCreate lays it out, whose slab is on no list of empty slabs once its object is freed |
| `SlabExamples.BigShape` | kernel/src/mm/slab.c:122-170 | the geometry of that cache is the one MemSlabCreate chooses for its size |
| `SlabSafety.ActiveCountsLive` | kernel/src/mm/slab.c:311-391 | activeObjs is the number of live objects |
| `SlabSafety.DestroyableIff` | kernel/src/mm/slab.c:208-213 | over any run from an allocator without slabs MemSlabDestroy's test passes if and only if no object of the cache is live and, where a slab holds a single object, none was handed out since the slab was created |
| `SlabSafety.ListedUntilUsed` | kernel/src/mm/slab.c:312-388 | over any run a one-object slab is on the empty list exactly if it has not been used since it was created |
| `SlabSafety.ReleaseIsSafe` | kernel/src/mm/slab.c:400-413 | releasing an empty slab with its header keeps everything in order and every caller's object |
| `SlabSafety.RunKeepsPagesExact` | kernel/src/mm/slab.c:227-416 | over any run the pages the allocator has taken are exactly those of its slabs, each of one slab: none leaks |
| `SlabAllocator.Allocator.constructor` | kernel/src/mm/slab.c:28-40 | the static cache of caches alone satisfies the invariant |
| `SlabAllocator.Allocator.WriteChain` | kernel/src/mm/slab.c:255-270 | the loop threads exactly the slab's objects in order and writes nowhere else |
| `SlabAllocator.Allocator.CreateSlab` | kernel/src/mm/slab.c:227-283 | an empty slab on unused pages, its header allocated from the header cache if it is large |
| `SlabAllocator.Allocator.TakeFrom` | kernel/src/mm/slab.c:305-328 | unlinks the first free object and moves the slab between lists |
| `SlabAllocator.Allocator.SlabAlloc` | kernel/src/mm/slab.c:286-329 | partial slab first, then empty, then a new one; the recursion for a header happens at most once; it fails only if the cache has neither a partial nor an empty slab |
| `SlabAllocator.Allocator.SlabFree` | kernel/src/mm/slab.c:347-392 | refuses pointers out of range and objects of other caches, else gives the object back to the slab its page leads to |
| `SlabAllocator.Allocator.KFree` | kernel/src/mm/slab.c:102-119 | any live object goes back to its own slab; a page without a slab is refused |
| `SlabAllocator.Allocator.KAlloc` | kernel/src/mm/slab.c:60-85 | NULL exactly for 0 and for more than 8192 bytes, else an object of the smallest class that fits, or a panic only if that class has no slab with room |
| `SlabAllocator.Allocator.Create` | kernel/src/mm/slab.c:122-203 | NULL exactly for 32 KB and more after alignment, else a new cache of the best geometry and nothing live disturbed, or a panic only if the root cache has no slab with room |
| `SlabAllocator.Allocator.Init` | kernel/src/mm/slab.c:47-57 | the header cache and the eleven class caches |
| `SlabAllocator.Allocator.Shrink` | kernel/src/mm/slab.c:395-416 | releases every empty slab of the cache with exactly its pages and spares every caller's object |
| `SlabAllocator.ShrunkInvIff` | kernel/src/mm/slab.c:395-416 | as the freed slabs stay linked, MemSlabShrink by itself leaves a good state if and only if there was nothing to free |
| `SlabExamples.ShrinkLeavesDanglingSlab` | kernel/src/mm/slab.c:395-416 | a run from boot to such a cache with one empty slab, which MemSlabShrink frees and leaves on the list |
| `SlabAllocator.Allocator.Destroy` | kernel/src/mm/slab.c:206-224 | refused exactly while a full or partial slab exists; else cache, slabs with exactly their pages, headers and descriptor go and every caller's object stays as it was |
| `VirtualMemory.KernelArea.FindRun` | kernel/src/mm/vmalloc.c:59-96 | the lowest run of free pages that is long enough, or none exactly if there is none |
| `VirtualMemory.KernelArea.Mark` | kernel/src/mm/vmalloc.c:77-85 | marks exactly the run, with its first page |
| `VirtualMemory.KernelArea.Reserve` | kernel/src/mm/vmalloc.c:47-101 | first fit: the pages reserved hold the bytes and one page less would not, and lie inside the area; NULL exactly for no bytes, for more than 2^32 - 4096 of them, or if no free run of pages holds them |
| `VirtualMemory.PagesHoldBytes` | kernel/src/mm/vmalloc.c:57-57 | the pages hold the bytes and one less does not, unless the 32-bit sum wraps |
| `VirtualMemory.KernelArea.DoUnreserve` | kernel/src/mm/vmalloc.c:104-143 | NULL and pages that start no block change nothing; else exactly the block, and for MemVirtualFree its mappings and frames, are given up; the area stays in order if and only if nothing was left mapped, or no other block owned a frame |
| `VirtualMemory.UnreserveKeepsInvIff` | kernel/src/mm/vmalloc.c:104-149 | MemVirtualUnReserve keeps free pages unmapped if and only if nothing is mapped in the block any more |
| `VirtualMemory.UnreserveMappedExample` | kernel/src/mm/vmalloc.c:104-149 | one page unreserved while it is mapped |
| `VirtualMemory.FreeKeepsInvIff` | kernel/src/mm/vmalloc.c:104-143 | MemVirtualFree on pages mapped to any frames keeps the area in order if and only if no other block owns one of them |
| `VirtualMemory.FreeSharedExample` | kernel/src/mm/vmalloc.c:104-143 | a page mapped to a frame that another page owns |
| `VirtualMemory.BackedIsNotElsewhere` | kernel/src/mm/vmalloc.c:152-183 | which always holds of a block MemVirtualAlloc made |
| `VirtualMemory.KernelArea.ClearBlock` | kernel/src/mm/vmalloc.c:123-142 | the loop stops exactly at the end of the block, also next to an adjacent one |
| `VirtualMemory.KernelArea.BackPages` | kernel/src/mm/vmalloc.c:157-161 | the loop takes one free frame a page and maps it, or panics exactly if frames run out |
| `VirtualMemory.KernelArea.Alloc` | kernel/src/mm/vmalloc.c:152-164 | NULL exactly if the length rounds to no page in 32 bits or no run is free; otherwise every page maps to a distinct frame that was free and now has count 1 and nothing else changes; a refused request of more than zero bytes still takes its frames |
| `VirtualMemory.KernelArea.MapPage` | kernel/src/mm/pageMapping.c:30-60 | maps exactly one unmapped page of the area, refusing addresses below it, its last page and mapped pages |
| `VirtualMemory.KernelArea.UnmapPage` | kernel/src/mm/pageMapping.c:63-90 | removes exactly one mapping and returns its frame |
| `VirtualMemory.StepKeepsInv` | kernel/src/mm/vmalloc.c:47-183 | every operation keeps the two bits a page an exact encoding of disjoint blocks, free pages unmapped, and each frame MemVirtualAlloc owns owned once with count 1 |
| `VirtualMemory.BlockExtent` | kernel/src/mm/vmalloc.c:126-132 | inside a block the next first page or free page comes exactly at its end |
| `VirtualMemory.UnreserveFreesWhatWasReserved` | kernel/src/mm/vmalloc.c:104-143 | after any other operations in between, unreserving frees precisely the pages reserved |
| `VirtualMemory.FreeReturnsWhatWasAllocated` | kernel/src/mm/vmalloc.c:152-183 | after any other operations in between, MemVirtualFree unmaps and returns the very frames MemVirtualAlloc mapped |
| `VirtualMemory.FreeUndoesAlloc` | kernel/src/mm/vmalloc.c:152-183 | allocating and freeing restores bits, mappings, counts and the free page count |
| `VirtualMemory.AllocMeans` | kernel/src/mm/vmalloc.c:152-164 | each page of the block maps to a frame that was free and now has count 1, and every other page and frame is as it was |
| `VirtualMemory.FreeMeans` | kernel/src/mm/vmalloc.c:104-143 | each page of the block loses its frame, which is free again, and every other page and frame is as it was |
| `Physical.CycleExaminesEachPageOnce` | kernel/src/mm/physical.c:107-163 | from a cursor inside the zone one cycle examines each page exactly once |
| `Physical.NeverEndsIff` | kernel/src/mm/physical.c:163-163 | the scan never ends if and only if the cursor is at the start of the zone, some page is in use, no free run in the zone is long enough, and the free pages at its end and at its start together are too few |
| `Physical.EndlessExample` | kernel/src/mm/physical.c:163-163 | a zone with every page in use, scanned from its start |
| `Physical.SinglePageNeverEndsIff` | kernel/src/mm/physical.c:163-163 | for one page: if and only if the cursor is at the start and every page is in use |
| `Physical.FirstFree` | kernel/src/mm/physical.c:107-163 | a zone with a free page is hit within one cycle |
| `Physical.SoundIffNotStraddling` | kernel/src/mm/physical.c:109-152 | whatever iteration finds it, a run handed out is all free and inside the zone if and only if it does not straddle the wrap: no run before the end is long enough, and the free pages at the end with those at the start are, or the zone is all free and too small |
| `Physical.StraddlesIff` | kernel/src/mm/physical.c:109-152 | such a run is handed out exactly if the zone straddles, so the condition is not too strong |
| `Physical.ComesBackEmptyIff` | kernel/src/mm/physical.c:103-163 | the scan comes back to a cursor inside the zone with nothing if and only if neither the pages before it, nor those from it on, nor the wrap have the run |
| `Physical.StraddlingExample` | kernel/src/mm/physical.c:114-118 | a concrete zone where the run handed out includes a page in use |
| `Physical.StraddlingFromStart` | kernel/src/mm/physical.c:114-163 | a zone of three pages with the middle one in use, scanned from its start for two pages: a page past its end is handed out |
| `Physical.SinglePage` | kernel/src/mm/physical.c:85-169 | a single-page request misses a zone exactly if nothing in it is free |
| `Physical.Memory.ScanZone` | kernel/src/mm/physical.c:103-163 | for every zone whose scan ends the loop finds nothing exactly if the zone is barren, and what it finds is a free run of the zone exactly if it does not straddle; the cursor is left where the scan stopped |
| `Physical.Memory.Alloc` | kernel/src/mm/physical.c:85-169 | the highest zone at or below the one asked for that does not fail gives the pages, a panic exactly if all fail; exactly those pages now have count 1 and the free count fell by their number; they are free pages of the zone exactly if the run does not straddle, and the free count stays exact exactly if they were all free |
| `Physical.TakenCount` | kernel/src/mm/physical.c:138-145 | taking pages lowers the number of free pages by their number exactly if they were all free |
| `Physical.CountKeptIffProper` | kernel/src/mm/physical.c:172-210 | an operation keeps MemPhysicalFreePages in step with the zero-reference pages if and only if it adds references to or frees allocated pages only |
| `Physical.RunKeepsCount` | kernel/src/mm/physical.c:85-210 | over any run of such operations the counter moves exactly with the number of zero-reference pages |
| `Physical.OverKeepsCountIff` | kernel/src/mm/physical.c:172-210 | over a range adding references or freeing drifts the count by the pages not in use, deleting never does |
| `Physical.BootZonesPartition` | kernel/src/mm/physical.c:42-82 | the zones split the machine's pages between them, at 16 MB and at 768 MB, and each cursor starts at its zone's start |
| `Physical.Memory.AddRefs` | kernel/src/mm/physical.c:172-179 | each page of the range has one reference more, no other page and not the free count changes; the count stays in step with the pages exactly if every page is in use |
| `Physical.Memory.DeleteRefs` | kernel/src/mm/physical.c:182-199 | each page of the range has one reference less, or none as before, no other page changes, and the free count grows by the number of pages that had one; the count always stays in step |
| `Physical.Memory.FreeRange` | kernel/src/mm/physical.c:202-210 | exactly the pages of the range have no reference afterwards and the free count grows by their number; the count stays in step exactly if every page is in use |
| `LazyFpu.RunRefinesEagerSwitching` | kernel/src/cpu.c:58-194 | over any run of switches, uses with their traps and exits, every thread's registers are what eager saving and restoring would give |
| `LazyFpu.StepRefines` | kernel/src/cpu.c:58-194 | each step matches the eager one, keeps the ownership invariant and never raises SIGFPE |
| `LazyFpu.FpuSwitchIsInvisible` | kernel/src/cpu.c:58-125 | switching the unit changes no thread's registers |
| `LazyFpu.FirstSwitchEstablishes` | kernel/src/cpu.c:153-177 | the first task switch after boot establishes the invariant |
| `LazyFpu.InitialWords` | kernel/src/cpu.c:86-97 | a new thread starts with control word 0x37F, and with MXCSR 0x1F80 on a machine with fxsave, its upper half 0xFFFF if denormals can be zero |
| `LazyFpu.ReapAsCodedKeepsInvIff` | kernel/src/process/process.c:696-697 | as coded, reaping leaves the unit in order if and only if neither the reaped nor the reaping thread owned it |
| `LazyFpu.ReapAsCodedKeepsRegistersIff` | kernel/src/process/process.c:696-697 | as coded, the survivors keep their registers if and only if the reaping thread's are still the initial ones |
| `LazyFpu.ReapAsCodedExample` | kernel/src/process/process.c:696-697 | a thread that reaps another and loses its own registers |
| `LazyFpu.Unit.DoFpuSwitch` | kernel/src/cpu.c:58-125 | saves the owner's registers, loads or initialises the current thread's, and counts the switch |
| `LazyFpu.Unit.CpuNoFpuException` | kernel/src/cpu.c:128-150 | SIGFPE exactly if the owner of the registers traps, which the invariant rules out; no thread's registers change and afterwards the unit is the current thread's |
| `LazyFpu.Unit.CpuTaskSwitched` | kernel/src/cpu.c:153-177 | no thread's registers change, the unit is switched early exactly for a frequent user, and the ownership invariant holds for the new thread |
| `LazyFpu.Unit.CpuFreeFpuState` | kernel/src/cpu.c:180-194 | that thread is back to the initial registers and owns nothing, every other keeps its own, and the invariant survives for any thread but the current one |

## Where the code and its documentation part ways

The model follows the code; the lemmas named show the consequence and when it does not matter.

- MemRegionResize tests the old length of a growing region against its neighbour (`Regions.GrowthKeepsWellFormedIff`).
- MemRegionCreate compares with the list head as if it were a region; the model takes the value found there as an arbitrary word (`Regions.Create`).
- MemPhysicalAlloc keeps a run open across the wrap of its cursor, goes round without end from a cursor at the start of the zone, and may hand out pages past the zone or scan for ever (`Physical.SoundIffNotStraddling`, `Physical.NeverEndsIff`).
- The block cache masks offsets with 32 bits although they have 64 (`Masks.AlignIsRightIff`, `BlockBuffers.BlockCache.WriteBuffer`), and a whole-block overwrite of a cached block takes no reference (`BlockBuffers.FreedByLastHolderIff`, `BlockOverwrites.RunInOrderIff`).
- HashTableReserve does not end on an empty table and may reserve too little (`HashTables.ReserveEndsIff`, `HashTables.ReserveFallsShortIff`).
- A slab of a single object never returns to the empty list, so its cache cannot be destroyed once used (`SlabSafety.EmptiedSlabIsListedIff`, `SlabSafety.DestroyableIff`), and MemSlabShrink leaves freed slabs linked (`SlabAllocator.ShrunkInvIff`).
- MemVirtualAlloc goes on to allocate frames after a failed reservation (`VirtualMemory.KernelArea.Alloc`).
- The timer queue is latest first, so a sleeper that is due waits for all that are not (`SchedulingRuns.DrainIsAllOrNothing`).
- ProcIntReapThread frees the FPU state of the reaping thread (`LazyFpu.ReapAsCodedKeepsInvIff`); the refinement is stated for CpuFreeFpuState applied to the thread that exited.
- The initial FPU state puts the word meant for the MXCSR mask in the upper half of MXCSR, as words 12 and 13 of the area are that register's halves (kernel/src/cpu.c:86-97). On a processor that has those bits reserved fxrstor faults on such a state; the model loads the value.

## Left out

- AddressSpaceRuns.StepRefines: region growth that leaves no room, which makes regions overlap, is not a step of the runs; `Regions.GrowthKeepsWellFormedIff` says when that is.
- MemoryManager.Manager.ExtendRegion: growth that leaves no room is excluded for the same reason.
- MemoryManager.Manager.UnmapPage: the 3-bit occupancy counter of page tables and their reclaim are not modelled; unmapping removes one entry and one reference.
- MemoryManager.Manager.MapZeroed: mappings are keyed by page number, so the 12-bit table index mask is not modelled, and the demand fault's zero fill is an operation on the frame.
- MemoryManager.Manager.HandleFault: faults on kernel addresses and regions without an access flag are not modelled.
- MemoryManager.Manager.Delete: the refusals of the null and the kernel context, and context reference counts, are not modelled.
- BlockProtocol.StepKeepsInv: whole-block overwrites of cached blocks are not among these steps, because they take no reference; `BlockOverwrites.MoveKeepsOrderIff` has them.
- Physical.Memory.Alloc: zones whose scan does not end, and runs that go past the end of the page table, are excluded.
- BlockBuffers.BlockCache.ReadBuffer: the check of the caller's buffer is an oracle, one answer a turn.
- BlockBuffers.CreateCache: the block size 2^31, negative as a C int, is not modelled.
- SlabAllocator.Allocator.Create: sizes 0 and above 2^32 - 4, for which the C code divides by zero, are excluded; so is the choice of zone.
- SlabAllocator.Allocator.SlabFree: pointers that are not live objects of the slab their page leads to are excluded, as the C code does not check them; the debug fill is left out.
- SlabAllocator.Allocator.Shrink: the number of pages it returns is not modelled.
- SlabAllocator.Allocator.CreateSlab: which free pages are handed out, and whether a run of several is found at all, is a parameter, since MemPhysicalAlloc may miss a free run (`Physical.ComesBackEmptyIff`); headers and descriptors are records beside the word memory rather than words in it.
- VirtualMemory.KernelArea.DoUnreserve: pointers outside the area, which index beyond the table, are excluded, and so is freeing pages with nothing mapped, for which the code frees page -1.
- HashTables.HashTable.Reserve: an empty table with a positive count is excluded, as the loop does not end; the null bucket pointer of an empty table is an array of length zero.
- KernelScheduler.Kernel.ProcExit: the last thread of a process and the notification of its siblings are not modelled.
- KernelScheduler.Kernel.ReaperThread: the reaping of a whole zombie process is not modelled.
- KernelScheduler.Kernel.ProcIntReaperAdd: the refusal of a thread whose process lives on is not modelled.
- KernelScheduler.Kernel.TimerInterrupt: the time a tick adds is a parameter; alarms and preemption are left out.
- KernelScheduler.Kernel.AddTimerToQueue: the sleep queue is a sequence of entries rather than a ring.
- KernelScheduler.Kernel.ProcCreateThread: where the thread's memory comes from is a parameter; names, stacks and the thread table are left out.
- IoBlockCacheDestroy and the list of blocks, on which blocks are never put.
- HashTableShrink, whose guard never holds.
- MemRegionFreePages, which divides addresses by the page size and then steps by it.
- The signed 20-bit page number of a page-table entry (kernel/include/mm/pagingInt.h:131): frames are plain numbers in the address spaces, and the kernel's virtual area is modelled for machines of at most 2^19 pages, where the field is exact.
- 32-bit wrap-around of reference counts and page counts, which would need more references than memory can hold.
- TLB flushes, CR3 writes and the stack swap, which are effects of the step that issues them; machines without an FPU.
- Signal masks and delivery, process-wide exit and wait, file descriptors, mounting, devfs, logging and boot code, which would add easy members only.
