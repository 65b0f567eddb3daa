# Verified model of the alarm terminal's kernel services, cipher and message builder

The firmware runs on RT-Thread. This project models four of its parts in Dafny and proves what
they promise.

**The kernel heap** (`HeapMemory`, `HeapLayout`, `HeapInvariant`, `HeapChain`, `HeapOwnership`,
`HeapCalls`, `KernelHeap`, `HeapTheorems`, `HeapSearch`, `HeapRuns`). `SystemHeap` is the allocator over one array
of bytes with headers in band, written and relinked in place. Each of its methods is proved to compute
a function on a sequence of blocks that tile the region, and to change no byte of a live region it is
not given. The theorems about first fit, isolation, accounting and runs of calls are about those
functions.

**The IPC layer** (`RingList`, `WaitQueue`, `WaitList`, then one pair of modules per object).
`RingList` holds the pointer operations of the doubly linked rings, `WaitQueue` the suspend lists
made of them. `Semaphore`, `MutexObject`, `EventObject`, `MailboxObject` and `MessageQueueObject` are
the kernel objects over these lists; every method is one section the source runs with interrupts
disabled and is proved to compute a step function on plain values. `Semaphores`, `Mutexes`,
`EventSets`, `Mailboxes` and `MessageQueues` put the steps of all threads into runs and prove what
holds in every reachable state of every interleaving, with timeouts, resets and, for messages, the
copies made with interrupts enabled as steps of their own. What callers are told is part of these
states, and `EventBits`, `MailboxAnswers` and `MessageAnswers` prove what they get.

**DES and triple DES** (`DesTables`, `DesCore`, `DesTheory`, `DesRefinement`, `DesComplement`,
`CbcMode`, `DesContext`, `DesBuffers`, `DesStandard`, `Fips46`). `Fips46` is the table-driven cipher of FIPS 46-3,
parts "Enciphering", "The Cipher Function f" and Appendix 1. The bit swaps, fused tables and subkey
words of the source are proved to compute it for every key and block. Inversion, complementation, the
laws of the triple cipher and CBC (FIPS 81) follow, and the methods on word arrays and buffers are
proved to compute these functions, in place as well. `DesStandard` carries this to the bytes of
key, message and vector.

**The SMS builder** (`SmsPdu`). The loops that pack numbers and print the frame, a reader of
SMS-SUBMIT after 3GPP TS 23.040 (sections 9.1.2.3, 9.1.2.5 and 9.2.2.2), and the round trip between
the two, with the AT+CMGS length of 3GPP TS 27.005 section 4.3.

## Findings

- `rt_malloc` never grants an exact fit that ends the heap, so a fresh heap refuses a request for its
  whole payload (`HeapTheorems.WholePayloadIsRefused`).
- On a payload below 12 bytes the search does not end (`HeapSearch.SmallHeapSearchNeverEnds`);
  `HeapSearch.MallocEndsIff` says exactly which calls end.
- `RT_ALIGN` wraps for the three sizes from 2^32 - 3 on (`HeapTheorems.AlignCovers`).
- An in-place shrink may leave `lfree` above the block it frees
  (`HeapTheorems.ShrinkMayHideItsRemainder`), and a request that block could serve is then refused
  (`HeapRuns.ShrinkHidesAFreeBlock`).
- The 8-bit `hold` of a mutex wraps at the 256th nested take: then the mutex is owned with `hold` 0,
  and one take later a single release gives it up (`Mutexes.HoldTellsFreeUnlessWrapped`,
  `Mutexes.WrappedHoldLosesTakes`).
- With a FIFO list, priority inheritance is lost on a hand-over (`Mutexes.FifoLosesInheritance`);
  `Mutexes.HandOverKeepsInheritanceIff` says exactly when.
- A release at the largest semaphore value loses all the units
  (`Semaphores.ReleaseAtMaximumLosesUnits`).
- A priority set while its thread waits does not move the thread in its list
  (`Semaphores.ChangedPriorityIsNotResorted`); `WaitList.ChangeKeepsOrderIff` says when that matters.
- The 16-bit message size of a queue loses the high bits of sizes above 65532
  (`MessageQueues.SizeKeptUnlessTruncated`).
- The validity octet 0xC2 is documented as five minutes at sms.h:36; it stands for 28 days
  (`SmsSubmit.ValidityIsFourWeeks`). The model follows the code.
- The frame announces 13 digits whatever the numbers' lengths (`SmsSubmit.PduRoundTrip`,
  `SmsSubmit.ElevenDigitsReadAsThirteen`).

## Model

| member | source | states |
|---|---|---|
| `HeapMemory.PutMagicWrote` | RT-Thread/src/mem.c:98-105 | storing magic in the bytes of a header changes that field only, and no byte outside the header |
| `HeapMemory.PutUsedWrote` | RT-Thread/src/mem.c:98-105 | the same for used |
| `HeapMemory.PutNextWrote` | RT-Thread/src/mem.c:98-105 | the same for next, whose four bytes read back as the number stored |
| `HeapMemory.PutPrevWrote` | RT-Thread/src/mem.c:98-105 | the same for prev |
| `KernelHeap.SystemHeap.FillHeader` | RT-Thread/src/mem.c:203-215 | the four stores in place leave a header that reads back field by field, and every other byte as it was |
| `HeapLayout.FirstFit` | RT-Thread/src/mem.c:269-276 | the index found is that of the first fitting block from a given one on, or none fits |
| `HeapTheorems.PayloadFits` | RT-Thread/src/mem.c:174-188 | payload and two headers fill the region between the two addresses up to alignment |
| `HeapTheorems.RefusedIffHeadersDoNotFit` | RT-Thread/src/mem.c:178-196 | initialisation is refused if and only if both headers fit nowhere between the aligned addresses, or only at address 0 below 28 |
| `HeapTheorems.WantedIsLeast` | RT-Thread/src/mem.c:252-264 | the size searched for is the least multiple of four that covers the request and twelve bytes, unless the alignment wraps |
| `HeapTheorems.RefusedWithoutSearch` | RT-Thread/src/mem.c:242-259 | a size of 0 and one whose alignment exceeds the heap are refused, and a refusal changes nothing |
| `HeapTheorems.AlignCovers` | RT-Thread/src/mem.c:252-264 | the aligned size covers the request if and only if the 32-bit addition in RT_ALIGN does not wrap; the largest size is aligned to 0 |
| `HeapInvariant.InitialHeapIsWellFormed` | RT-Thread/src/mem.c:203-220 | the heap after initialisation is well formed |
| `HeapInvariant.PlugTiles` | RT-Thread/src/mem.c:126-164 | coalescing keeps the blocks a gap-free tiling by 4-aligned blocks |
| `HeapInvariant.PlugLeavesNoFreeNeighbours` | RT-Thread/src/mem.c:126-164 | after coalescing around the freed block no two neighbours are free |
| `HeapInvariant.PlugKeepsLfree` | RT-Thread/src/mem.c:144-160 | lfree still points at a free block or the end when the block it named is merged away, and a lowest lfree stays the lowest |
| `HeapInvariant.MallocKeepsWellFormed` | RT-Thread/src/mem.c:236-364 | a granted request keeps tiling, separation of free blocks, accounting and lfree; a lowest lfree stays the lowest |
| `HeapInvariant.FreeKeepsWellFormed` | RT-Thread/src/mem.c:494-548 | the same for freeing a live block |
| `HeapInvariant.ShrinkKeepsWellFormed` | RT-Thread/src/mem.c:420-444 | the same for an in-place shrink, where lfree stays some free block or the end |
| `HeapInvariant.UsedAndFreeFillTheHeap` | RT-Thread/src/mem.c:309-329 | used and free extents add up to the payload and one header |
| `HeapChain.MarkRepresents` | RT-Thread/src/mem.c:303-332 | setting the used field of one header in the byte region represents the heap with that block marked |
| `HeapChain.JoinRepresents` | RT-Thread/src/mem.c:148-163 | relinking two headers in the byte region represents the heap with the two blocks joined: next and prev stay mutually inverse below the closing header |
| `HeapChain.SplitRepresents` | RT-Thread/src/mem.c:293-308 | writing a new header inside a block represents the heap with that block split |
| `HeapOwnership.UsedAfterMalloc` | RT-Thread/src/mem.c:275-332 | the used blocks after a grant are those before and one new block |
| `HeapOwnership.UsedAfterFree` | RT-Thread/src/mem.c:494-548 | the used blocks after a free are those before without the freed one |
| `HeapOwnership.UsedAfterShrink` | RT-Thread/src/mem.c:420-444 | a shrink shortens one used block and leaves the others |
| `HeapOwnership.OwnedRegionsAreDisjoint` | RT-Thread/src/mem.c:236-363 | no two live payloads overlap, nor a payload and a header |
| `HeapOwnership.LiveIffOwned` | RT-Thread/src/mem.c:494-520 | a pointer is live if and only if it is the payload of a used block |
| `HeapCalls.Realloc` | RT-Thread/src/mem.c:375-456 | every outcome of a reallocation is a well-formed heap; what it answers is in ReallocOfNull, ReallocOfForeign, ReallocKeepsPointerIff and ReallocGivesALiveRegion |
| `KernelHeap.SystemHeap.constructor` | RT-Thread/src/mem.c:174-221 | initialisation writes the two headers and represents the initial heap |
| `KernelHeap.SystemHeap.PlugHoles` | RT-Thread/src/mem.c:126-164 | the in-place coalescing computes the specified heap and changes no live byte |
| `KernelHeap.SystemHeap.Free` | RT-Thread/src/mem.c:494-548 | rt_free on NULL, foreign or live pointers yields the specified heap and keeps every other live byte |
| `KernelHeap.SystemHeap.Search` | RT-Thread/src/mem.c:269-276 | the walk along the headers ends at the first fit |
| `KernelHeap.SystemHeap.TakeBlock` | RT-Thread/src/mem.c:275-357 | splitting or taking whole, accounting and the lfree loop together yield the specified heap |
| `KernelHeap.SystemHeap.Malloc` | RT-Thread/src/mem.c:236-364 | rt_malloc yields the specified heap and address and keeps every live byte |
| `KernelHeap.SystemHeap.ShrinkBlock` | RT-Thread/src/mem.c:420-444 | the in-place shrink yields the specified heap and keeps the bytes that stay |
| `KernelHeap.SystemHeap.MoveBlock` | RT-Thread/src/mem.c:447-456 | allocate, copy and free: the first min(old, new) bytes arrive; on failure the old block is live and intact |
| `KernelHeap.SystemHeap.Realloc` | RT-Thread/src/mem.c:375-456 | rt_realloc yields the specified heap and address; other live regions are unchanged; the kept bytes are where the result points |
| `HeapTheorems.ChosenIsFirstCandidate` | RT-Thread/src/mem.c:269-276 | the search finds the first block at or above lfree that fits |
| `HeapTheorems.GrantedBlockIsLowest` | RT-Thread/src/mem.c:269-276 | a granted request got the lowest fitting block at or above lfree |
| `HeapTheorems.RefusedOnlyWithoutCandidates` | RT-Thread/src/mem.c:262-276 | a request that could be granted is refused if and only if every fitting block at or above lfree is an exact fit that ends the region |
| `HeapTheorems.FirstFitIsComplete` | RT-Thread/src/mem.c:255-363 | with lfree the lowest free block the same holds of the whole heap |
| `HeapTheorems.WholePayloadIsRefused` | RT-Thread/src/mem.c:269-271 | a fresh heap refuses a request for its whole payload |
| `HeapTheorems.ShrinkMayHideItsRemainder` | RT-Thread/src/mem.c:420-444 | after an in-place shrink lfree is still the lowest free block if and only if it lay below the shrunk block or named the free block behind it |
| `HeapTheorems.GrantedRegionIsFresh` | RT-Thread/src/mem.c:275-357 | the granted region is aligned, large enough but less than 24 bytes larger than searched for, inside the heap and disjoint from every live region |
| `HeapTheorems.FreeEndsOneLife` | RT-Thread/src/mem.c:494-548 | freeing one pointer ends its life and no other |
| `HeapTheorems.ResizeReplacesOneRegion` | RT-Thread/src/mem.c:411-455 | a successful reallocation leaves one region with room for the request in place of the old one, apart from all others, and returns its pointer; a failed one changes nothing |
| `HeapTheorems.ReallocGivesALiveRegion` | RT-Thread/src/mem.c:375-456 | what rt_realloc returns for a live pointer is live and has room for the aligned request |
| `HeapTheorems.ReallocOfNull` | RT-Thread/src/mem.c:388-395 | rt_realloc of NULL returns a new region with room for the request, apart from all live ones, or NULL with the heap unchanged; it succeeds if and only if rt_malloc does and the alignment does not wrap |
| `HeapTheorems.ReallocOfForeign` | RT-Thread/src/mem.c:388-406 | a pointer outside the region comes back unchanged with the heap unchanged, or NULL if the size exceeds the heap |
| `HeapTheorems.FreeOfForeign` | RT-Thread/src/mem.c:494-515 | freeing NULL or a pointer outside the region changes nothing |
| `HeapTheorems.ReallocKeepsPointerIff` | RT-Thread/src/mem.c:408-455 | the same pointer comes back if and only if its room is the aligned size or exceeds it by more than 24, and then has that room; NULL if and only if the size exceeds the heap or a new block is needed and refused |
| `HeapTheorems.FreeingEverythingRestoresOneBlock` | RT-Thread/src/mem.c:494-548 | freeing all live pointers in any order leaves one free block, used_mem 0 and lfree 0 |
| `HeapRuns.ReachableHeaps` | RT-Thread/src/mem.c:174-548 | after any run of init, malloc, free and realloc the chain tiles the region, no neighbours are both free, and used_mem is the extent of the used blocks |
| `HeapRuns.WithoutReallocLfreeIsLowest` | RT-Thread/src/mem.c:334-341 | in runs of malloc and free lfree is the lowest free block or the end |
| `HeapRuns.MaxIsHistorical` | RT-Thread/src/mem.c:309-329 | max_mem is the historical maximum of used_mem over any run |
| `HeapRuns.ShrinkHidesAFreeBlock` | RT-Thread/src/mem.c:420-444 | malloc 40, malloc 12 and an in-place shrink on a payload of 68 bytes, after which a request for 12 is refused although a free block below the last one fits |
| `HeapSearch.NextHeaderIsRead` | RT-Thread/src/mem.c:269-271 | the walk of the search theorems is what the next fields in the byte region give |
| `HeapSearch.SmallHeapSearchNeverEnds` | RT-Thread/src/mem.c:269-271 | on every heap with a payload below 12 bytes and every request that gets to the search, the walk goes on for any number of turns |
| `HeapSearch.ClimbsToTheBound` | RT-Thread/src/mem.c:269-276 | where the unsigned bound does not wrap, the walk reaches it or a fitting block |
| `HeapSearch.MallocEndsIff` | RT-Thread/src/mem.c:236-271 | rt_malloc ends if and only if the size is 0, its alignment exceeds the payload, or the payload has at least 12 bytes |
| `HeapSearch.ReallocEndsIff` | RT-Thread/src/mem.c:375-455 | rt_realloc ends if and only if it does not allocate, or that allocation ends |
| `RingList.InsertAfter` | RT-Thread/include/rtservice.h:52-59 | the node joins the one cycle behind the given node; next and prev stay mutually inverse |
| `RingList.InsertBefore` | RT-Thread/include/rtservice.h:67-74 | the node joins the one cycle before the given node |
| `RingList.Remove` | RT-Thread/include/rtservice.h:80-86 | the node leaves the cycle, which closes up, and is alone on its own |
| `WaitQueues.WaitQueue.constructor` | RT-Thread/src/ipc.c:62-69 | the list of a new object is the head alone |
| `WaitQueues.WaitQueue.IsEmpty` | RT-Thread/include/rtservice.h:92-95 | the head is its own successor if and only if nobody waits |
| `WaitQueues.WaitQueue.Place` | RT-Thread/src/ipc.c:98-113 | the walk stops at the first less urgent waiter, or at the head |
| `WaitQueues.WaitQueue.Suspend` | RT-Thread/src/ipc.c:81-124 | the ring now holds the thread at its specified place; its stat is suspended |
| `WaitQueues.WaitQueue.Unlink` | RT-Thread/src/thread.c:583-619 | the thread leaves the ring and is ready |
| `WaitQueues.WaitQueue.ResumeHead` | RT-Thread/src/ipc.c:135-149 | the first waiter leaves, the others keep their order |
| `WaitQueues.WaitQueue.Expire` | RT-Thread/src/thread.c:628-649 | a waiter leaves from anywhere in the list with a timeout error |
| `WaitQueues.WaitQueue.ResumeAll` | RT-Thread/src/ipc.c:158-187 | everyone leaves with an error and the list is empty |
| `WaitList.Position` | RT-Thread/src/ipc.c:98-121 | the place of a new waiter: behind all that are at least as urgent, before all others; last in FIFO mode |
| `WaitList.SuspendKeepsOrder` | RT-Thread/src/ipc.c:98-121 | priority order is kept and equal priorities stay in order of arrival |
| `WaitList.SuspendAppends` | RT-Thread/src/ipc.c:92-94 | FIFO mode appends |
| `KernelSemaphore.Semaphore.constructor` | RT-Thread/src/ipc.c:200-220 | the value is stored in 16 bits and nobody waits |
| `KernelSemaphore.Semaphore.Take` | RT-Thread/src/ipc.c:317-388 | the object after the first section of a take, and what it returns unless the thread waits |
| `KernelSemaphore.Semaphore.Release` | RT-Thread/src/ipc.c:424-458 | the head waiter is resumed without error, or the 16-bit value grows |
| `KernelSemaphore.Semaphore.Expire` | RT-Thread/src/thread.c:628-649 | a timed-out waiter leaves the list |
| `KernelSemaphore.Semaphore.Reset` | RT-Thread/src/ipc.c:470-499 | all waiters fail, then the value is set |
| `Semaphores.ReachableIsSound` | RT-Thread/src/ipc.c:317-499 | in every reachable state, across resets, a positive value means nobody waits, no thread waits twice, and a thread whose take has not returned is either waiting or woken |
| `Semaphores.TakeAnswers` | RT-Thread/src/ipc.c:334-350 | a take waits if and only if there is no unit and its time is not 0; otherwise it returns RT_EOK with one unit less or -RT_ETIMEOUT with nothing changed |
| `Semaphores.ResetSetsUnits` | RT-Thread/src/ipc.c:478-493 | a reset replaces the units in the counter and takes none from a thread that was given one |
| `Semaphores.Conservation` | RT-Thread/src/ipc.c:317-458 | initial units plus releases are the value, the takes that returned RT_EOK, the threads woken to return it, and 65536 for every wrap of the counter |
| `Semaphores.BalanceUnlessWrapped` | RT-Thread/src/ipc.c:317-458 | from initialisation on, initial value plus releases equals value plus takes answered or about to be answered with RT_EOK if and only if no release found the counter at its maximum with nobody waiting |
| `Semaphores.ReleaseAtMaximumLosesUnits` | RT-Thread/src/ipc.c:447-448 | value 65535, one release: nothing is left and nothing was granted |
| `Semaphores.HandOver` | RT-Thread/src/ipc.c:424-458 | a hand-over goes to the head waiter and leaves the value and the others alone; over every run up to its return that thread has the unit, and its take returns RT_EOK |
| `Semaphores.WaitersStaySorted` | RT-Thread/src/ipc.c:317-458 | while no priority changes, a priority-ordered semaphore keeps its waiters sorted, so a release wakes a most urgent one |
| `Semaphores.ChangedPriorityIsNotResorted` | RT-Thread/src/ipc.c:98-121 | two threads wait, the second is made more urgent, and a release still wakes the first |
| `WaitList.ChangeKeepsOrderIff` | RT-Thread/src/thread.c:476-514 | a priority set while its thread waits keeps the list sorted if and only if it lies between the neighbours' priorities |
| `KernelMutex.MutexObject.constructor` | RT-Thread/src/ipc.c:514-533 | a new mutex is free |
| `KernelMutex.MutexObject.Take` | RT-Thread/src/ipc.c:631-732 | the object and all priorities after the first section of a take, and what it returns unless the thread waits |
| `KernelMutex.MutexObject.Wait` | RT-Thread/src/ipc.c:689-727 | the owner inherits a more urgent priority, then the thread joins the list |
| `KernelMutex.MutexObject.Release` | RT-Thread/src/ipc.c:761-845 | the object, all priorities and the error after a release |
| `KernelMutex.MutexObject.PassOn` | RT-Thread/src/ipc.c:805-834 | the head waiter becomes the owner, or the mutex is free |
| `KernelMutex.MutexObject.Expire` | RT-Thread/src/thread.c:628-649 | a timed-out waiter leaves the list; the owner keeps its priority |
| `Mutexes.ReachableIsSound` | RT-Thread/src/ipc.c:631-845 | in every reachable state value is 1 exactly when there is no owner, waiters imply an owner who is not among them, and hold is the nesting depth modulo 256 |
| `Mutexes.TakeAnswers` | RT-Thread/src/ipc.c:656-730 | a take waits if and only if another thread owns the mutex and its time is not 0, is refused if and only if another owns it and its time is 0, and else makes or leaves the thread the owner, one deeper, with RT_EOK |
| `Mutexes.ToldOkIffOwner` | RT-Thread/src/ipc.c:656-732 | when a take returns, at once or after waiting, it returns RT_EOK if and only if the thread then owns the mutex, and -RT_ETIMEOUT otherwise |
| `Mutexes.HandsOverToTheHead` | RT-Thread/src/ipc.c:792-835 | the release that ends an ownership makes the head waiter the owner, once, and keeps the others in order, or frees the mutex |
| `Mutexes.HoldTellsFreeUnlessWrapped` | RT-Thread/src/ipc.c:656-675 | one event keeps "hold is 0 exactly when free" if and only if it is not the 256th nested take |
| `Mutexes.WrappedHoldLosesTakes` | RT-Thread/src/ipc.c:656-845 | 256 nested takes from the start leave the mutex owned with hold 0, and after one more a single release gives it up |
| `Mutexes.HoldTellsFree` | RT-Thread/src/ipc.c:656-845 | in runs without a 256th nested take hold is 0 exactly when the mutex is free |
| `Mutexes.OnlyMatchingReleaseEnds` | RT-Thread/src/ipc.c:781-835 | the mutex leaves its owner exactly on the owner's release at depth one modulo 256 |
| `Mutexes.OwnerKeepsUntilMatched` | RT-Thread/src/ipc.c:631-845 | over any run an owner nested at most 255 deep keeps the mutex until it has released as often as it took |
| `Mutexes.StrangersCannotRelease` | RT-Thread/src/ipc.c:781-790 | a release by another thread returns an error and changes nothing; the owner's returns RT_EOK |
| `Mutexes.StrangersCannotTakeAway` | RT-Thread/src/ipc.c:781-790 | over any run in which the owner itself does not release, it stays the owner, whatever the others do |
| `Mutexes.StepBoostsOnlyOwner` | RT-Thread/src/ipc.c:695-803 | one event leaves every thread but the owner at its own priority |
| `Mutexes.ReachableBoostsOnlyOwner` | RT-Thread/src/ipc.c:631-845 | over any run every thread but the owner has its own priority and original_priority is the owner's, so the final release restores it |
| `Mutexes.ReachableBoostIsLeast` | RT-Thread/src/ipc.c:695-703 | over any run without outside changes, in both queueing modes, the owner's priority is exactly the most urgent of its own and of those of the threads that came to wait during its ownership |
| `Mutexes.HandOverKeepsInheritanceIff` | RT-Thread/src/ipc.c:805-825 | after a hand-over nobody waits for a less urgent owner if and only if the head waiter was as urgent as all |
| `Mutexes.NoInversion` | RT-Thread/src/ipc.c:631-845 | with a priority-ordered list and no outside priority change no reachable state has a thread waiting for a less urgent owner |
| `Mutexes.FifoLosesInheritance` | RT-Thread/src/ipc.c:805-825 | a four-event run with a FIFO list that ends in such a state |
| `KernelEvent.EventObject.constructor` | RT-Thread/src/ipc.c:875-892 | a new event object has no bits and no waiters |
| `KernelEvent.EventObject.Check` | RT-Thread/src/ipc.c:1107-1117 | the test is AND if asked for, else OR if asked for, else false |
| `KernelEvent.EventObject.Recv` | RT-Thread/src/ipc.c:1078-1158 | the object, result, received bits and blocking of a receive up to the schedule |
| `KernelEvent.EventObject.Settle` | RT-Thread/src/ipc.c:1024-1044 | what a resumed waiter finds in event_set and what CLEAR leaves |
| `KernelEvent.EventObject.Resume` | RT-Thread/src/ipc.c:1039-1051 | one waiter is resumed at its place in the list |
| `KernelEvent.EventObject.Turn` | RT-Thread/src/ipc.c:1012-1052 | one turn of the walk, with the next node taken before the current one leaves |
| `KernelEvent.EventObject.Send` | RT-Thread/src/ipc.c:984-1063 | the walk over the shrinking list computes the specified sweep of the enlarged set; sending nothing is an error |
| `KernelEvent.EventObject.Expire` | RT-Thread/src/thread.c:628-649 | a timed-out waiter leaves the list |
| `KernelEvent.EventObject.Reset` | RT-Thread/src/ipc.c:1191-1216 | all waiters fail and the set is empty |
| `EventSets.DeferredIsImmediate` | RT-Thread/src/ipc.c:1015-1044 | a resumed waiter gets the bits and leaves the set that an immediate receive from the same set would |
| `EventSets.ClearTakesExactly` | RT-Thread/src/ipc.c:1107-1127 | a receive that succeeds gets an answer and, with CLEAR, takes exactly the bits asked for out of the set |
| `EventSets.SweepServesInOrder` | RT-Thread/src/ipc.c:1006-1053 | sending leaves the set that immediate receives by the waiters in list order would: CLEAR bits are consumed in that order |
| `EventSets.SweepLeavesNoneSatisfied` | RT-Thread/src/ipc.c:1006-1053 | after the walk no waiter left in the list is satisfied, though CLEAR changes the set on the way |
| `EventSets.SweepAnswersTheResumed` | RT-Thread/src/ipc.c:1015-1034 | every resumed waiter holds all the bits it asked for, or a non-empty part of them |
| `EventSets.ReachableIsSound` | RT-Thread/src/ipc.c:984-1216 | in every reachable state no suspended thread's condition is met, every thread resumed without error holds an answer to its request, and a thread whose receive has not returned is either waiting or resumed |
| `EventBits.SatisfiedBitwise` | RT-Thread/src/ipc.c:1017-1038 | with AND a request is met exactly when every bit asked for is in the set, with OR alone when some is, and without either never |
| `EventBits.ReceiveAnswers` | RT-Thread/src/ipc.c:1092-1146 | a receive asking for nothing is an error; it waits if and only if its request is not met and its timeout is not 0; refused it returns -RT_ETIMEOUT, no bits, and changes nothing; met it returns an answer |
| `EventBits.SendConservesBits` | RT-Thread/src/ipc.c:1003-1044 | after a send, the set left and the bits taken by resumed waiters with CLEAR make up the old set and the bits sent, with no bit in both; with nobody waiting the set is just their union |
| `EventBits.SendWakes` | RT-Thread/src/ipc.c:1006-1053 | in a reachable state a send resumes the k-th waiter if and only if its request is met by what those before it left of the enlarged set; it then returns RT_EOK and the bits of its request found there |
| `EventBits.BitIsThereIff` | RT-Thread/src/ipc.c:984-1216 | over every run a bit is in the set if and only if it was sent, or there at first, and neither a CLEAR nor a reset took it out since |
| `KernelMailbox.MailboxObject.constructor` | RT-Thread/src/ipc.c:1233-1261 | a new mailbox is empty and has the 16 low bits of the size given |
| `KernelMailbox.MailboxObject.TrySend` | RT-Thread/src/ipc.c:1384-1501 | one pass of a send: the object, the error, and whether the thread waits |
| `KernelMailbox.MailboxObject.Deposit` | RT-Thread/src/ipc.c:1476-1488 | a mail goes into the ring and the first receiver is resumed |
| `KernelMailbox.MailboxObject.Store` | RT-Thread/src/ipc.c:1476-1483 | the slot at in_offset is written and in_offset advances round the ring |
| `KernelMailbox.MailboxObject.TryRecv` | RT-Thread/src/ipc.c:1531-1653 | one pass of a receive: a received value is the oldest mail |
| `KernelMailbox.MailboxObject.Withdraw` | RT-Thread/src/ipc.c:1623-1636 | the oldest mail comes out and the first sender is resumed |
| `KernelMailbox.MailboxObject.Retrieve` | RT-Thread/src/ipc.c:1623-1631 | the slot at out_offset is read and out_offset advances round the ring |
| `KernelMailbox.MailboxObject.ExpireReceiver` | RT-Thread/src/thread.c:628-649 | a timed-out receiver leaves its list only |
| `KernelMailbox.MailboxObject.ExpireSender` | RT-Thread/src/thread.c:628-649 | a timed-out sender leaves its list only |
| `KernelMailbox.MailboxObject.Reset` | RT-Thread/src/ipc.c:1666-1695 | both lists fail and the mailbox is empty |
| `Mailboxes.PostAppends` | RT-Thread/src/ipc.c:1476-1483 | posting appends to the contents and keeps in_offset == (out_offset + entry) mod size |
| `Mailboxes.FetchTakesOldest` | RT-Thread/src/ipc.c:1623-1631 | fetching removes the first of the contents and keeps the same equation |
| `Mailboxes.ReachableIsSound` | RT-Thread/src/ipc.c:1384-1695 | over all interleavings of sends, receives, timeouts, resets and re-checks: waiting receivers mean entry is at most the receivers resumed but not re-checked; waiting senders mean the free slots are at most such senders |
| `Mailboxes.NobodyIsStuck` | RT-Thread/src/ipc.c:1384-1654 | once all resumed threads have looked again, receivers wait only on an empty mailbox and senders only on a full one |
| `Mailboxes.FirstInFirstOut` | RT-Thread/src/ipc.c:1384-1654 | over any run without reset the mails that were there and those that senders were told are sent are, in order, those that receivers were given and those left |
| `MailboxAnswers.SendAnswers` | RT-Thread/src/ipc.c:1404-1499 | one pass of a send waits if and only if every slot is taken and time is left, is refused with -RT_EFULL and no change if and only if every slot is taken and none is, and else is told RT_EOK |
| `MailboxAnswers.ReceiveAnswers` | RT-Thread/src/ipc.c:1549-1652 | the same for a receive from an empty mailbox and -RT_ETIMEOUT; otherwise it is given the oldest mail |
| `MailboxAnswers.WakesTheHead` | RT-Thread/src/ipc.c:1486-1498 | a mail that goes in resumes the first waiting receiver, one that comes out the first waiting sender |
| `MailboxAnswers.ResetFailsAll` | RT-Thread/src/ipc.c:1666-1695 | a reset empties the mailbox and fails every waiting sender and receiver |
| `MailboxAnswers.ReachableIsAccounted` | RT-Thread/src/ipc.c:1384-1695 | in every interleaving a thread whose call has not returned waits, is resumed or has failed, and a failed one is nowhere else |
| `MailboxAnswers.SendsWhatWasAsked` | RT-Thread/src/ipc.c:1384-1500 | a thread told that its mail is sent has sent the mail of its last call, however often it waited |
| `MessageQueues.NodeLiesInThePool` | RT-Thread/src/ipc.c:1743-1759 | every node is aligned and lies in the pool |
| `MessageQueues.NodesTileThePool` | RT-Thread/src/ipc.c:1743-1759 | nodes are aligned, lie in the pool and do not overlap |
| `MessageQueues.SizeKeptUnlessTruncated` | RT-Thread/src/ipc.c:1744 | a node holds the message size asked for if and only if that is at most 65532; 65533 leaves nothing |
| `MessageQueues.PoolIsUsedUp` | RT-Thread/src/ipc.c:1743-1745 | no further node fits in the pool if and only if the number of nodes needs no more than 16 bits |
| `MessageQueues.StartIsSound` | RT-Thread/src/ipc.c:1747-1762 | a new queue has all nodes free |
| `MessageQueues.ReachableIsSound` | RT-Thread/src/ipc.c:1904-2258 | over all interleavings, copies included: every node is in exactly one of free list, queue and one holder; nobody writes a node another holds; a waiting receiver means the queued messages are at most the receivers resumed but not re-checked |
| `MessageQueues.NobodyIsStuck` | RT-Thread/src/ipc.c:2075-2170 | once all resumed receivers have looked again, receivers wait only on an empty queue |
| `MessageQueues.RefinesDeque` | RT-Thread/src/ipc.c:1904-2258 | over any run receivers unlink what a double-ended queue would pop: send pushes at the back, urgent at the front, reset empties |
| `MessageQueues.CopiesAreFaithful` | RT-Thread/src/ipc.c:1940-1941 | a node about to be linked begins with its sender's bytes, and what a receiver copies out begins the message it unlinked, whatever ran during the copies |
| `MessageQueues.DeliversWhatWasSent` | RT-Thread/src/ipc.c:1904-2258 | from a new queue on, the messages receivers unlink begin, one by one and in deque order, with the byte strings given to send and urgent |
| `MessageAnswers.DeliversToReceivers` | RT-Thread/src/ipc.c:1904-2196 | from a new queue on, the receiver of the k-th unlinked message copies the smaller of its buffer and the message size; a byte string sent that fits its buffer is there in full, a longer one cut at the buffer, in deque order |
| `MessageAnswers.ReceiveAnswers` | RT-Thread/src/ipc.c:2100-2182 | one pass of a receive waits if and only if the queue is empty and time is left, ends without a message if and only if it is empty and none is, and else unlinks the oldest message |
| `MessageAnswers.SendAnswers` | RT-Thread/src/ipc.c:1914-1933 | in a reachable state a send gets a node if and only if its message is not too long and not every node is queued or held |
| `MessageAnswers.WakesTheHead` | RT-Thread/src/ipc.c:1958-1963 | a linked message resumes the first waiting receiver and keeps the others in order |
| `MessageAnswers.ResetFailsAll` | RT-Thread/src/ipc.c:2214-2258 | a reset forgets every queued message and fails every waiting receiver |
| `MessageAnswers.ReachableIsAccounted` | RT-Thread/src/ipc.c:2075-2258 | in every interleaving a thread whose receive has not returned is in exactly one place: waiting, resumed, failed, or copying out of one node |
| `NodeChains.AppendChain` | RT-Thread/src/ipc.c:1945-1953 | linking behind the last node extends the chain from the head |
| `NodeChains.PushChain` | RT-Thread/src/ipc.c:2032-2034 | linking before the first node extends the chain at the front |
| `NodeChains.PopChain` | RT-Thread/src/ipc.c:2175-2176 | the link of the first node leads to the rest of the chain |
| `KernelMessageQueue.MessageQueueObject.constructor` | RT-Thread/src/ipc.c:1718-1765 | sizes as stored in 16 bits, an empty queue, every node free |
| `KernelMessageQueue.MessageQueueObject.FreeAll` | RT-Thread/src/ipc.c:1751-1759 | the loop links every node into the free list, the last first |
| `KernelMessageQueue.MessageQueueObject.Alloc` | RT-Thread/src/ipc.c:1922-1933 | a node leaves the free list; NULL exactly when that is empty |
| `KernelMessageQueue.MessageQueueObject.Fill` | RT-Thread/src/ipc.c:1938-1941 | the copy changes the held node only |
| `KernelMessageQueue.MessageQueueObject.LinkBack` | RT-Thread/src/ipc.c:1945-1972 | the node is the new tail, entry grows, the first receiver is resumed |
| `KernelMessageQueue.MessageQueueObject.LinkFront` | RT-Thread/src/ipc.c:2032-2054 | the node is the new head, and tail of an empty queue |
| `KernelMessageQueue.MessageQueueObject.Send` | RT-Thread/src/ipc.c:1904-2060 | an undisturbed send or urgent: too long, no node, or the message in its place |
| `KernelMessageQueue.MessageQueueObject.TryRecv` | RT-Thread/src/ipc.c:2075-2185 | one pass of a receive: refused, waiting, or the first node held |
| `KernelMessageQueue.MessageQueueObject.Unlink` | RT-Thread/src/ipc.c:2172-2182 | the first node leaves the queue; tail is NULL when it was the last |
| `KernelMessageQueue.MessageQueueObject.CopyOut` | RT-Thread/src/ipc.c:2188 | the bytes a receiver copies out of its node; DeliversToReceivers says how many and which |
| `KernelMessageQueue.MessageQueueObject.Release` | RT-Thread/src/ipc.c:2192-2194 | the node is first on the free list |
| `KernelMessageQueue.MessageQueueObject.Expire` | RT-Thread/src/thread.c:628-649 | a timed-out receiver leaves the list |
| `KernelMessageQueue.MessageQueueObject.Reset` | RT-Thread/src/ipc.c:2214-2258 | receivers fail and every queued node is back on the free list |
| `DesCore.GetPutBlock` | des.c:41-59 | a block stored big-endian reads back |
| `DesCore.PutGetBlock` | des.c:41-59 | eight bytes read as a block store back unchanged |
| `DesTheory.FpInvertsIp` | des.c:246-269 | the final permutation undoes the initial one |
| `DesTheory.ReversedRoundsInvert` | des.c:274-287 | the reversed schedule on exchanged halves undoes the rounds, for any round function |
| `DesTheory.ReversePairsAt` | des.c:461-474 | where each pair of words goes under the pair swaps |
| `DesTheory.DecryptInvertsEncrypt` | des.c:451-605 | for every key and block decryption undoes encryption and encryption undoes decryption |
| `DesTheory.EcbInverts` | des.c:579-605 | the block operation under a reversed schedule inverts it, for any schedule |
| `DesTheory.FusedPassIsThreePasses` | des.c:662-700 | the fused 48 rounds are three block operations in a row, for any three schedules |
| `DesTheory.TripleIsEncryptDecryptEncrypt` | des.c:527-700 | the triple cipher is encrypt under the first, decrypt under the second, encrypt under the third key |
| `DesTheory.ReversedSchedule3` | des.c:527-548 | the decryption schedule is the encryption schedule with its pairs reversed |
| `DesTheory.TripleDecryptInvertsEncrypt` | des.c:553-700 | triple decryption undoes triple encryption and the other way round |
| `DesTheory.TripleCollapses` | des.c:527-700 | equal first and second keys leave single DES under the third; equal second and third, under the first |
| `DesRefinement.InitialPermutationRefines` | des.c:246-255 | the bit swaps compute the IP table of FIPS 46-3 on halves rotated left by one |
| `DesRefinement.FinalPermutationRefines` | des.c:260-269 | the bit swaps compute the inverse IP table |
| `DesRefinement.PermutedChoice1Refines` | des.c:384-404 | the swaps and the two 16-entry tables compute PC-1 |
| `DesRefinement.KeyHalvesRefine` | des.c:409-420 | the rotated key halves are the C and D registers after every number of shifts |
| `DesRefinement.ScheduleRefines` | des.c:379-446 | the gathered subkey words hold PC-2 of every round in the layout the lookups use |
| `DesRefinement.LookupsRefine` | des.c:64-287 | the eight fused table lookups compute E, the key sum, the S-boxes and P |
| `DesRefinement.RoundsRefine` | des.c:274-287 | any number of rounds computes the L and R registers of the standard |
| `DesRefinement.EcbRefinesEncipher` | des.c:379-605 | for every key and block the block operation computes the enciphering of FIPS 46-3 |
| `Fips46.BytesAreNumberedFromTheLeft` | des.c:41-48 | in the block of eight bytes bits 8 i + 1 to 8 i + 8 of the standard are byte i, most significant first |
| `DesStandard.BlockIsItsBytes` | des.c:41-48 | the block read from a buffer is the standard's block of the eight bytes there |
| `DesStandard.KeyIsItsBytes` | des.c:384-385 | the key read from a buffer is the standard's block of the eight key bytes there |
| `DesComplement.EncipherComplement` | des.c:246-287 | the standard's enciphering commutes with complement of key and block |
| `DesComplement.Complementation` | des.c:379-605 | for every key and block, encrypting the complement under the complemented key gives the complement |
| `DesContext.SetKey` | des.c:379-446 | the loop stores the specified schedule from any place of the word array on |
| `DesContext.SetKeyEnc` | des.c:451-456 | the array holds the encryption schedule of the key bytes, which by KeyIsItsBytes and EncryptsAsStandard is that of the standard's key |
| `DesContext.ReverseInPlace` | des.c:467-471 | the eight swaps in place reverse the sixteen pairs |
| `DesContext.SetKeyDec` | des.c:461-474 | the array holds the reversed schedule |
| `DesContext.Set2Key` | des.c:476-499 | the arrays hold the three-key schedules with the third key equal to the first |
| `DesContext.Set3Key` | des.c:527-548 | the arrays hold the triple encryption schedule and its reversal |
| `DesContext.RunRounds` | des.c:593-597 | the loop runs the specified rounds |
| `DesBuffers.CryptEcb` | des.c:579-605 | eight output bytes are the specified block, also over the input |
| `DesBuffers.Crypt3Ecb` | des.c:662-700 | the same for the triple cipher, whose middle loop runs with the variables exchanged |
| `DesBuffers.XorInto` | des.c:627-628 | eight bytes become the bytewise sum, also in place |
| `DesBuffers.EncryptBuffer` | des.c:623-637 | the loop computes CBC encryption, in place or not, and leaves the last ciphertext block as vector |
| `DesBuffers.DecryptBuffer` | des.c:638-654 | the loop computes CBC decryption, in place or not |
| `DesBuffers.CryptCbc` | des.c:610-657 | CBC in both directions with single and triple schedules; a length not divisible by 8 is an error and changes nothing |
| `DesBuffers.CbcRoundTrip` | des.c:610-752 | CBC decryption under the reversed schedule from the same vector gives the message back, for any number of blocks |
| `DesStandard.CryptEnciphers` | des.c:379-700 | under the encryption schedule of 8, 16 or 24 key bytes the block operation is the standard's enciphering, or encipher, decipher, encipher |
| `DesStandard.CryptDeciphers` | des.c:451-700 | under the decryption schedule it gives the block that enciphers to its argument |
| `DesStandard.EnciphersIsOneToOne` | des.c:379-700 | one ciphertext for every block and one block for every ciphertext, under one, two or three keys |
| `DesStandard.EncryptsAsStandard` | des.c:579-700 | with an encryption schedule the eight output bytes are the standard's ciphertext of the eight input bytes under the key bytes, for single, two-key and three-key schedules |
| `DesStandard.DecryptsAsStandard` | des.c:579-700 | with a decryption schedule the input bytes are the ciphertext of the output bytes |
| `DesStandard.CbcEncryptsAsStandard` | des.c:623-637 | byte for byte: every output block enciphers its input block xor the vector or the output block before it |
| `DesStandard.CbcDecryptsAsStandard` | des.c:638-654 | byte for byte: every input block enciphers its output block xor the vector or the input block before it |
| `DesBuffers.BlocksFixBytes` | des.c:610-657 | equal blocks mean equal bytes |
| `CbcMode.DecryptInvertsEncrypt` | des.c:610-752 | CBC decryption undoes encryption for any cipher with an inverse and any length |
| `CbcMode.EncryptConcat` | des.c:623-637 | one call over a + b equals a call over a and a call over b with the vector left by the first |
| `CbcMode.DecryptConcat` | des.c:638-654 | the same for decryption |
| `CbcMode.EncryptAt` | des.c:625-631 | the FIPS 81 equation of every ciphertext block |
| `CbcMode.DecryptAt` | des.c:640-648 | the FIPS 81 equation of every plaintext block |
| `SmsSubmit.HexRoundTrip` | sms.c:446-453 | octets printed as hexadecimal read back |
| `SmsSubmit.PackedDigits` | sms.c:401-423 | a number of any length reads back from its semi-octets |
| `SmsSubmit.CentreDigits` | sms.c:425-430 | the service centre's number reads back if and only if it has 13 or 14 digits |
| `SmsSubmit.DestDigits` | sms.c:432-437 | the destination reads back if and only if it has 13 digits |
| `SmsSubmit.ElevenDigitsReadAsThirteen` | sms.c:432-437 | a destination of 11 digits reads back with the filler and a zero behind it |
| `SmsSubmit.TextRoundTrip` | sms.c:490-494 | UCS-2 text reads back |
| `SmsSubmit.FrameDecodes` | sms.c:425-444 | what the frame says, read as an SMS-SUBMIT, whatever the numbers |
| `SmsSubmit.PduRoundTrip` | sms.c:425-496 | the printed frame reads back as both numbers and the text if and only if the numbers have the lengths the fixed octets announce |
| `SmsSubmit.CmgsCountsTheMessage` | sms.c:500-503 | the AT+CMGS length is the number of octets at the end of the frame that decode alone to the message; the octets before them are the centre's address |
| `SmsSubmit.Clipped` | sms.c:473-476 | a text is cut to its first 70 units, or sent whole if it has no more |
| `SmsSubmit.ValidityIsFourWeeks` | sms.h:36 | the validity octet stands for 28 days; five minutes would be 0 |
| `SmsBuilder.PackAddress` | sms.c:401-423 | the pair loop and the filler store the packed number, whatever lies behind the local copy |
| `SmsBuilder.InitHead` | sms.c:425-444 | the 24 octets before the text |
| `SmsBuilder.HexToString` | sms.c:446-453 | the loop prints the octets and leaves the rest of the buffer alone |
| `SmsBuilder.FillText` | sms.c:490-494 | the loop stores the text high octet first |
| `SmsBuilder.Build` | sms.c:473-503 | the string is the printed frame with the first 70 characters, and the AT+CMGS length is the octets after the service centre's part |

## Left out

- Interrupts, `rt_schedule`, timers, ticks: every section with interrupts disabled is one step of a run, a wait is split into joining the list and looking again, any waiter may time out at any moment, and what remains of a timeout when a mailbox or queue call looks again is a parameter, so the tick arithmetic of the wait loops is not modelled.
- Threads: identifiers with links, priority, error, stat and event fields; the ready queues and the scheduler are not part of this model.
- Creating, deleting and detaching IPC objects, hooks, logging, `RT_ASSERT` and the module branches.
- Numbers of 16 and 8 bits in `ipc.c` are modelled with their wrap-around (semaphore value, mutex hold, message size and count); a mailbox's `entry` cannot wrap because it is at most the 16-bit size.
- KernelMessageQueue.MessageQueueObject.constructor: nodes are numbers and payloads byte sequences; that they lie in the pool without overlap is a separate lemma, and the pool's bytes before the first message are taken as zero.
- KernelMailbox.MailboxObject.TrySend: the error field of a thread that is refused at once is not claimed, here and in the other calls that return an error.
- KernelMutex.MutexObject.Take: one mutex at a time; a thread that owns two mutexes and its chained priorities appear only as priorities set from outside.
- Mutexes.NoInversion: for runs in which no priority is set from outside, because another mutex or a priority call can set any priority.
- Heap: the heap semaphore, hooks, `rt_calloc` and the finsh listing; each call is atomic.
- KernelHeap.SystemHeap.Free: the back link of the closing header, which a split does not maintain, is not claimed; a pointer inside the region that is not live is excluded, as the assertions of the source do.
- KernelHeap.SystemHeap.Malloc: excludes the calls on which the search does not end, exactly those of `HeapSearch.MallocEndsIff`; `Realloc` likewise those of `HeapSearch.ReallocEndsIff`.
- Semaphores.WaitersStaySorted: for runs in which no priority changes, because the source does not move a waiting thread whose priority is set.
- HeapRuns.ReachableHeaps: sizes are 32-bit numbers; a request whose alignment wraps is granted as the small size it wraps to, as in the source.
- DesBuffers.CryptCbc: one method stands for the single and the triple call, which differ in the schedule only; the input and output buffers are the same or do not overlap.
- `des.c`: the self test, key parity and the weak-key table.
- SmsBuilder.Build: numbers of up to 14 digits, which is what the seven-octet fields hold; the mail thread, the message tables and the exchange with the modem are not part of this model.
- Device drivers, the GSM and camera state machines and the other application threads.
