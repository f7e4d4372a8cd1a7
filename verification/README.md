# Kernel virtual memory: a verified model

This project models the hard parts of a kernel's virtual-memory subsystem and
proves what they promise each other:

- copy-on-write cache chains: page faults, area copies, page-out, and merging a
  cache into its only consumer, with swap blocks (`CopyOnWrite`, `LostPage`,
  `SwapBlocks`, `SwapRange`, `AnonymousCache`, `Adoption`, `VmCache`,
  `CacheGraph`);
- the page reservation protocol and its waiters (`PageReservation`), the lock of
  a VM cache (`CacheLock`, `WaiterQueue`) and switching between such locks
  (`LockSwitches`), for any number of threads and any interleaving of their
  atomic steps;
- commitment accounting between swap space and memory (`Commitment`);
- the kernel address-range allocator (`KernelRanges`, `KernelAddressSpace`);
- the slab memory manager, object caches and the object depot (`MetaChunks`,
  `MetaChunkLists`, `SlabMemory`, `ObjectCache`, `Depot`);
- file cache I/O, page write-back batching and the search for page runs
  (`FileCacheIo`, `WriteBatch`, `PageRunSearch`).

Code that changes objects in place is modelled by classes whose methods are
proved against specification functions on values; protocols of several threads
are state machines whose steps are the atomic steps of the code, and their
theorems are about every state of every run. A caller's or the environment's
choice (which page is busy, whether memory is left, what a constructor returns)
is a parameter or a nondeterministic step.

## Where the code does less than it seems to promise

Each of these has an exact condition for all inputs; what is named as a case is a
concrete input or run that shows it:

- `_MergeSwapPages` copies slots into an existing consumer block without raising
  its `used` count. A later merge, or freeing one of the block's slots, may then
  discard the block with live slots in it. For one merge the condition is
  `SwapBlocks.OutcomePreservesView`; for whole runs of faults, stores, copies,
  merges and page-out, areas keep what they hold if and only if every step is
  harmless (`CopyOnWrite.RunRefinesMemory`), and they are harmless as long as no
  merge copies into an existing block (`CopyOnWrite.NothingLost`). Cases:
  `SwapBlocks.TwoMergesLoseAPage`, and the runs `LostPage.FreeingLosesAPage` and
  `LostPage.MergingLosesAPage`, in which an area loses a page it never stored to.
- `_MergeSwapPages` returns early if both allocated sizes are zero
  (`SwapBlocks.OutcomeViewAt`, `SwapBlocks.CountedSkipsNothing`; case
  `SwapBlocks.UndercountLosesAPage`).
- `Adopt` stops in a block when its `used` count runs out, and ignores the end of
  the range (`Adoption.AdoptExact`, `Adoption.AdoptTail`; cases
  `Adoption.UndercountLosesASlot`, `Adoption.TailLosesASlot`).
- `_FreeSwapPageRange` believes the same counters: it gives back the slots of its
  range, and takes no others from the cache, if and only if counters and allocated
  size cover them (`SwapRange.FreeSwapPageRange`; case
  `SwapRange.RangeTakesAnother`).
- `ResizeArea` grows over a following area unless `CanResizeArea` was asked first
  (`KernelRanges.ResizeKeepsAreas`; case `KernelRanges.ResizeSwallows`), and a
  resize to nothing leaves an empty range in the list
  (`KernelAddressSpace.KernelSpace.ResizeArea`, `KernelRanges.ResizedTiles`).
- `cache_io` keeps its page reservation if and only if it reads without a buffer,
  the request is long enough to bypass the cache, its last page is not cached and
  memory was low when it last looked (`FileCacheIo.CacheIo.Run`; case
  `FileCacheIo.KeepsReservation`).
- `VMAnonymousCache::Fault` drops what `swap_space_reserve` gave it if that is
  less than a page (`Commitment.StepConserves`, `Commitment.WholeRunConserves`;
  case `Commitment.FaultLosesSwap`).
- `ReturnObjectToSlab` leaves a slab of one object on two lists
  (`ObjectCache.ReturnMoves`; case `ObjectCache.OneObjectSlab`), and with few
  empty slabs it gives a slab back exactly when the minimum reserve still needed
  it (`ObjectCache.Cache.ReturnObject`).
- `CreateSlab` checks the quota before it drops the lock: a thread that may wait
  and one that may not can exceed it together, by one slab at most. What is used
  and promised stays within the quota if and only if no thread begins a slab for
  which there is no room left, as the counters before the step tell
  (`ObjectCache.Run`, `ObjectCache.Once`; case `ObjectCache.OverQuota`). For the
  same reason an allocation can fail while an object is free
  (`ObjectCache.Cache.AllocateMore`; case `ObjectCache.FailsWithOneFree`).
- `object_depot_make_empty` does not reset its counts, and the capacity is gone
  for good (`Depot.SlackStep`, `Depot.FullListStaysEmpty`; case
  `Depot.FullListIsLost`).
- Destroying a `VMCacheLock` strands a thread that has decremented the counter
  and not yet taken the spin lock (`CacheLock.DestroyExact`; case
  `CacheLock.DestroyStrands`).
- `SwitchFromLock` holds one spin lock while it takes another: threads spin for
  ever if and only if they wait for each other in a circle
  (`LockSwitches.MovesOrCircle`, `LockSwitches.CircleForEver`), which ordered
  switches rule out (`LockSwitches.RankedNoCircle`) and the hash of lock
  addresses does not (case `LockSwitches.SwitchesDeadlock`).
- `_GetChunks` sees only the cached range of a meta chunk, so a run can be there
  and not be found (`MetaChunkLists.Manager.GetChunks`; case
  `MetaChunkLists.RunMissed`).
- The boundary mask of the page-run search has 32 bits: it is exact if and only
  if the run need not move for it or ends below frame 2^32
  (`PageRunSearch.MaskExact`; case `PageRunSearch.MaskLosesFrames`).

## Model

| member | source | states |
|---|---|---|
| `CopyOnWrite.StepKeeps` | mm.cpp:2288-2401 | after every fault, store, page-out, page-in, freed slot, copy, merge and unmap each area shows what a memory without any sharing would show, or, where a merge or a freed slot discards a block with a live slot in it, what lies behind that slot |
| `CopyOnWrite.StepHarmless` | cache/mm_anonymous_cache.cpp:963-1060 | a step shows every area what a memory without sharing would show if and only if no slot it discards hides something else |
| `CopyOnWrite.StepBacks` | cache/mm_anonymous_cache.cpp:751-826 | after every step no two pages of any caches share a swap slot and every block has its 32 slots |
| `CopyOnWrite.RunInv` | mm.cpp:2288-2401 | the consistency of chains, pages and mappings holds in every state of every run |
| `CopyOnWrite.RunRefinesMemory` | mm.cpp:2610-2696 | over whole runs the cache chains refine plain per-area memory, in which only stores through an area and copies decide what it holds, if and only if every step is harmless |
| `CopyOnWrite.NothingLost` | cache/mm_anonymous_cache.cpp:1036-1058 | in every run whose merges copy no slot into an existing block, all slot counters and sizes stay exact and every step is harmless |
| `CopyOnWrite.StepExact` | cache/mm_anonymous_cache.cpp:751-826 | page-out, freed slots, adopted and merged blocks keep counters and sizes exact unless a merge copies into an existing block |
| `LostPage.FreeingLosesAPage` | cache/mm_anonymous_cache.cpp:596-607 | a run of fourteen steps after which an area no longer shows a page it never stored to: a merge copied a slot, and another slot of the block was freed |
| `LostPage.MergingLosesAPage` | cache/mm_anonymous_cache.cpp:1036-1058 | a run in which the second of two merges loses a page of an area |
| `LostPage.BothIs` | cache/mm_anonymous_cache.cpp:1048-1058 | the block after the first merge has two slots and a counter of one |
| `CopyOnWrite.ForkIsolation` | mm.cpp:2767-2854 | between two moments of a run of harmless steps, an area's contents at an offset change only by stores through that very area, however faults, copies and merges are mixed in |
| `CopyOnWrite.CopyReadsTheSame` | mm.cpp:3037-3212 | after copying an area both the area and the copy read what the source read |
| `CopyOnWrite.WritableIsPrivate` | mm.cpp:2610-2696 | every writable mapping points at a page of the area's own top cache, which no other area's chain finds |
| `CopyOnWrite.LoadIsRight` | mm.cpp:2288-2401 | in a run of harmless steps a load through any mapping, possibly read-only and shared, returns what the area holds |
| `CopyOnWrite.MapFoundKeeps` | mm.cpp:2610-2696 | mapping the page a fault found, writable only when the top cache has it, keeps all promises |
| `CopyOnWrite.FaultKeeps` | mm.cpp:2288-2401 | clean pages, copies from lower caches and pages read in leave what every area shows unchanged |
| `CopyOnWrite.StoreSeen` | mm.cpp:2610-2696 | a store changes what its own area shows at that offset and nothing else |
| `CopyOnWrite.FindMerged` | cache/mm_cache.cpp:642-667 | merging a cache into its only consumer: every chain finds the same page or backing store as before, except where a discarded block had the slot, and there what lies behind it |
| `CopyOnWrite.MergeKeeps` | cache/mm_cache.cpp:642-667 | a merge keeps the consistency of chains, pages and mappings, and changes what an area shows only at the slots it discards |
| `CopyOnWrite.StealKeeps` | page_alloc.cpp:1346-1376 | freeing an unmodified page whose contents are in the backing store is invisible |
| `CopyOnWrite.WriteBackKeeps` | cache/mm_anonymous_cache.cpp:678-734 | writing a page to its slot changes what no area shows |
| `CopyOnWrite.FreeSlotKeeps` | cache/mm_anonymous_cache.cpp:596-607 | freeing the slot of a page that is about to be written again changes what areas show only at the slots that go with its block |
| `CopyOnWrite.ForkKeepsInv` | mm.cpp:2767-2854 | putting a new cache between an area and its old cache, moving or copying wired pages and downgrading the mappings, keeps the invariant |
| `CopyOnWrite.ForkContent` | mm.cpp:2767-2854 | the two areas of a copy, and all others, show the same as before |
| `CopyOnWrite.CopyReadOnlyKeeps` | mm.cpp:3037-3212 | copying a read-only area puts only a new cache on top and is invisible to all others |
| `SwapBlocks.MergedSlot` | cache/mm_anonymous_cache.cpp:963-1060 | slot by slot, the merged block holds the consumer's slot, else the source's if no resident consumer page shadows it, unless the block was discarded |
| `SwapBlocks.MergedSlotAt` | cache/mm_anonymous_cache.cpp:963-1060 | the same for the whole block table, by page index |
| `SwapBlocks.ExactDiscardsEmpty` | cache/mm_anonymous_cache.cpp:1036-1039 | with an exact counter a block that is discarded has no slot left |
| `SwapBlocks.MergeKeepsExact` | cache/mm_anonymous_cache.cpp:1048-1058 | from exact counters the merged block is exact again if and only if no slot was copied into an existing consumer block |
| `SwapBlocks.MergeViewAt` | cache/mm_anonymous_cache.cpp:530-557 | at an offset the merged cache shows what consumer over source showed if and only if that page is not lost |
| `SwapBlocks.MergePreservesView` | cache/mm_anonymous_cache.cpp:530-557 | the view of the consumer through all further sources is the same at every offset if and only if no page is lost |
| `SwapBlocks.ExactLosesNothing` | cache/mm_anonymous_cache.cpp:963-1060 | if the source's counters are exact, no page is lost |
| `SwapBlocks.MergeKeepsCounters` | cache/mm_anonymous_cache.cpp:1048-1058 | all counters are exact after a merge of exact caches if and only if no pair of blocks took the copy branch |
| `SwapBlocks.CopyPreparesLoss` | cache/mm_anonymous_cache.cpp:1048-1058 | for all caches: a merge through the copy branch makes a later merge lose the copied page as soon as resident pages cover the block's own slots |
| `SwapBlocks.CoveredBlockDiscarded` | cache/mm_anonymous_cache.cpp:1036-1039 | a block with copied slots is discarded once its own slots are shadowed |
| `SwapBlocks.TwoMergesLoseAPage` | cache/mm_anonymous_cache.cpp:963-1060 | three concrete caches whose two merges lose a swapped-out page |
| `SwapBlocks.OutcomeViewAt` | cache/mm_anonymous_cache.cpp:530-557 | the whole of Merge, early return included: at an offset the consumer shows what it showed over the source if and only if the page is not spoiled, and what it shows otherwise |
| `SwapBlocks.OutcomePreservesView` | cache/mm_anonymous_cache.cpp:530-557 | the view through all further sources is the same at every offset if and only if no page is spoiled |
| `SwapBlocks.CountedSkipsNothing` | cache/mm_anonymous_cache.cpp:965-968 | if the allocated sizes are the numbers of slots, the early return spoils nothing |
| `SwapBlocks.ExactOutcome` | cache/mm_anonymous_cache.cpp:963-1060 | from exact counters and sizes a merge spoils nothing and leaves exact sizes, and exact counters if and only if nothing was copied into an existing block |
| `SwapBlocks.MergedSizeExact` | cache/mm_anonymous_cache.cpp:963-1060 | with exact source counters the consumer's allocated size is the number of its slots afterwards |
| `SwapBlocks.TakenIsGain` | cache/mm_anonymous_cache.cpp:1032-1034 | with an exact source block, what is added to the allocated size is the number of slots the consumer gains |
| `SwapBlocks.UndercountLosesAPage` | cache/mm_anonymous_cache.cpp:965-968 | a size of zero for a cache with a slot makes the merge lose that page |
| `SwapBlocks.BuildIs` | cache/mm_anonymous_cache.cpp:751-800 | filing a slot changes that page only and keeps exact counters exact if the page had none |
| `SwapBlocks.ReleaseIs` | cache/mm_anonymous_cache.cpp:802-826 | freeing a slot takes exactly that slot away, unless the counter says it was the last one: then all slots of the block go |
| `SwapBlocks.WithSlotAt` | cache/mm_anonymous_cache.cpp:384-425 | setting a slot and adjusting the counter modulo 2^32 changes one page only and keeps an exact counter exact |
| `AnonymousCache.Anonymous.FilterSlots` | cache/mm_anonymous_cache.cpp:1009-1030 | the slot loop with its 32-bit countdown computes the filter that FilterIs characterizes |
| `AnonymousCache.FilterIs` | cache/mm_anonymous_cache.cpp:1009-1030 | what stays of a source block is what nothing shadows, freed and kept slots together are all slots, and the count is right modulo 2^32 |
| `AnonymousCache.FreedOrKept` | cache/mm_anonymous_cache.cpp:1009-1030 | no slot is both freed and kept, and none disappears |
| `AnonymousCache.Anonymous.RemoveShadowedPages` | cache/mm_anonymous_cache.cpp:991-1004 | exactly the source pages behind a consumer swap slot are freed, and the source's page counts stay exact |
| `AnonymousCache.Anonymous.MergeSwapBlock` | cache/mm_anonymous_cache.cpp:1006-1058 | one block is merged, discarded or handed over as the value model says, and both allocated sizes follow |
| `AnonymousCache.Anonymous.MergeRound` | cache/mm_anonymous_cache.cpp:975-1058 | one round of the block loop is one round on values, pages included |
| `AnonymousCache.Anonymous.MergeSwapPages` | cache/mm_anonymous_cache.cpp:963-1060 | all rounds over the source's range, or nothing if neither cache has swap space |
| `AnonymousCache.MergedAll` | cache/mm_anonymous_cache.cpp:963-1060 | block rounds and page maps together give the merged image of the theorems about views |
| `AnonymousCache.Anonymous.Merge` | cache/mm_anonymous_cache.cpp:530-557 | in place, with either page strategy and with the early return, the consumer becomes the outcome the theorems about views speak of, and so does its allocated size; every page names the consumer and its counters are exact |
| `AnonymousCache.SizeAfterAll` | cache/mm_anonymous_cache.cpp:963-1060 | the rounds of the block loop add to the consumer's size what the value model says |
| `Adoption.MoveSlot` | cache/mm_anonymous_cache.cpp:410-424 | one slot moves from a source page to a destination page, with both 32-bit counters and both sizes, and no other slot changes, whatever the counters say |
| `Adoption.DestinationBlock` | cache/mm_anonymous_cache.cpp:387-408 | finds or makes the destination block without changing any slot, or fails without memory |
| `Adoption.AdoptBlock` | cache/mm_anonymous_cache.cpp:384-438 | for any relative alignment of the two block grids and any counter, the slots of one source block from a page on are moved until the counter runs out, and a block whose counter is zero is discarded |
| `Adoption.AdoptSlots` | cache/mm_anonymous_cache.cpp:353-442 | how far the slots of the range are translated, for any counters; the two allocated sizes together stay the same; on failure a part of the range is done |
| `Adoption.AdoptPages` | cache/mm_cache.cpp:509-525 | every page of the range moves to its translated index and names the new cache |
| `Adoption.Adopt` | cache/mm_anonymous_cache.cpp:353-444 | slots and pages together; it fails only without memory for blocks; the range is translated if and only if the counters and the source's size cover its slots |
| `Adoption.AdoptTranslates` | cache/mm_anonymous_cache.cpp:353-444 | the new cache shows at the new offset exactly what the source showed, and the source no longer shows it |
| `Adoption.AdoptLeavesOthers` | cache/mm_anonymous_cache.cpp:353-444 | outside the blocks of the range the source shows what it showed |
| `Adoption.AdoptTail` | cache/mm_anonymous_cache.cpp:384-425 | between the end of the range and the end of its last block the source shows the same as before if and only if no slot decided what it showed there |
| `Adoption.TailLosesASlot` | cache/mm_anonymous_cache.cpp:384-425 | two caches for which adopting one page takes a slot behind the range along, which the source then no longer shows |
| `Adoption.AdoptExact` | cache/mm_anonymous_cache.cpp:353-442 | all slots of the range are translated and nothing else changes if and only if each block's counter covers its slots |
| `Adoption.ExactCovers` | cache/mm_anonymous_cache.cpp:353-442 | exact counters and sizes cover |
| `Adoption.StopIs` | cache/mm_anonymous_cache.cpp:384-386 | the inner loop stops at the first slot from which on the counter has been used up |
| `Adoption.UndercountLosesASlot` | cache/mm_anonymous_cache.cpp:384-438 | two caches for which a counter of one over two slots makes adopting move one slot and lose the other from both |
| `Adoption.ShiftMove` | cache/mm_anonymous_cache.cpp:384-425 | moving one slot extends the translated part by one page |
| `SwapRange.FreeSwapPageRange` | cache/mm_anonymous_cache.cpp:274-330 | for any counters and size: exactly the slots of the range, without those of busy pages, are given back and no other leaves the cache, if and only if each block's counter and the allocated size cover them |
| `SwapRange.ExactIff` | cache/mm_anonymous_cache.cpp:274-330 | a loop that runs to the end of the range frees its slots and no others if and only if in every block the counter is larger than the range's slots there, or as large and there are no others, or zero |
| `SwapRange.ExactCovers` | cache/mm_anonymous_cache.cpp:274-330 | exact counters and sizes cover every range |
| `SwapRange.FreePage` | cache/mm_anonymous_cache.cpp:316-328 | freeing one page's slot is the next step of the range's, with the block discarded when its 32-bit counter gets to zero |
| `SwapRange.PassBlock` | cache/mm_anonymous_cache.cpp:290-294 | a block that is missing or was discarded can be skipped: none of its pages would be freed |
| `SwapRange.MustCover` | cache/mm_anonymous_cache.cpp:316-328 | a block that is discarded too early leaves a slot of the range behind or takes one outside it along |
| `SwapRange.RangeTakesAnother` | cache/mm_anonymous_cache.cpp:316-328 | a cache for which giving back one page's slot takes another page's along |
| `VmCache.Cache.InsertPage` | cache/mm_cache.cpp:202-229 | the page is filed under its offset, names this cache, and page and wired counts stay exact |
| `VmCache.Cache.RemovePage` | cache/mm_cache.cpp:231-258 | the page is out of the tree and names no cache, counts exact |
| `VmCache.Cache.MovePage` | cache/mm_cache.cpp:260-296 | a page changes caches with both caches valid, wired counts included |
| `VmCache.Cache.MoveAllPages` | cache/mm_cache.cpp:298-316 | swapping trees and references moves all pages at once: every page still names the cache that holds it |
| `VmCache.Cache.MergeSmallerSource` | cache/mm_anonymous_cache.cpp:915-934 | pulling pages up one by one gives the union of the page maps, consumer first |
| `VmCache.Cache.MergeSmallerConsumer` | cache/mm_anonymous_cache.cpp:936-961 | pushing pages down and taking everything back gives the same union |
| `VmCache.Cache.PushDown` | cache/mm_anonymous_cache.cpp:936-957 | one page goes down, freeing the page in its way |
| `VmCache.Cache.MergePages` | cache/mm_anonymous_cache.cpp:552-556 | whichever strategy the page counts select, the result is the same |
| `VmCache.PulledAll` | cache/mm_anonymous_cache.cpp:915-934 | pulling pages in any order ends with the union |
| `VmCache.PushedAll` | cache/mm_anonymous_cache.cpp:936-961 | pushing pages in any order ends with the same union |
| `VmCache.PagesApart` | cache/mm_cache.cpp:202-316 | no page is in two valid caches |
| `CacheGraph.Caches.Create` | cache/mm_cache.cpp:92-108 | a new cache has one reference, its creator's |
| `CacheGraph.Caches.AcquireRef` | mm_cache.h:336-346 | one more holder, counted |
| `CacheGraph.Caches.InsertArea` | cache/mm_cache.cpp:343-354 | the area takes over a reference; the count stays areas plus consumers plus holders |
| `CacheGraph.Caches.RemoveArea` | cache/mm_cache.cpp:356-375 | the area's reference is the caller's, count exact |
| `CacheGraph.Caches.AddConsumer` | cache/mm_cache.cpp:328-341 | source and consumer links stay mutual and acyclic |
| `CacheGraph.Caches.TransferAreas` | cache/mm_cache.cpp:377-393 | all areas change caches with their references; nothing is left to be deleted or merged if and only if the cache they leave is held, or has consumers and is not to be merged into the only one |
| `CacheGraph.Caches.ReleaseRef` | mm_cache.h:348-364 | whatever releasing sets off down the chain, links stay mutual, counts exact, no unreferenced cache is left and none that could be merged into its only user, and nobody else's areas or references change |
| `CacheGraph.Caches.Unlock` | cache/mm_cache.cpp:151-187 | the cache is gone afterwards if and only if nobody referred to it or only its one consumer did and it could merge; all chains are fully collapsed then, so that unlocking the consumer has nothing left to do |
| `CacheGraph.Caches.MergeWithOnlyConsumer` | cache/mm_cache.cpp:642-667 | the consumer takes the cache's place in the chain and the cache is left without links or references |
| `CacheGraph.Caches.Delete` | cache/mm_cache.cpp:118-149 | when it is called there are no areas and no consumers, so neither panic is reachable |
| `CacheGraph.LinkedInv` | cache/mm_cache.cpp:328-341 | adding a consumer keeps the graph invariant |
| `CacheGraph.TransferredInv` | cache/mm_cache.cpp:377-393 | transferring areas keeps the graph invariant |
| `CacheGraph.BypassedInv` | cache/mm_cache.cpp:642-667 | taking a cache out from between its source and only consumer keeps the graph invariant |
| `CacheGraph.BypassedLive` | cache/mm_cache.cpp:642-667 | taking a cache out of a chain leaves no other cache to be deleted or merged |
| `CacheGraph.CutOffInv` | cache/mm_cache.cpp:669-685 | removing a consumer from its source keeps the graph invariant |
| `CacheGraph.NoRefs` | cache/mm_cache.cpp:118-149 | no references means no areas, no consumers and no holders |
| `CacheLock.StepInv` | cache/vm_cache_lock.cpp:45-218 | every atomic step of every thread keeps counter, holder, token and queue consistent |
| `CacheLock.RunInv` | cache/vm_cache_lock.cpp:45-218 | so they are consistent in every state of every run of any number of threads |
| `CacheLock.MutualExclusion` | cache/vm_cache_lock.cpp:45-169 | at most one thread owns the lock in any state of any run |
| `CacheLock.CounterExact` | cache/vm_cache_lock.cpp:112-158 | minus the counter is owners plus contenders, within the number of threads |
| `CacheLock.HolderExact` | cache/vm_cache_lock.cpp:57-158 | the holder field names a thread if and only if the lock was given to it, so the ownership assertions hold |
| `CacheLock.NeverIdleWithWaiter` | cache/vm_cache_lock.cpp:125-158 | while a thread is queued, another one owns the lock or is about to hand it over |
| `CacheLock.HandOverOnce` | cache/vm_cache_lock.cpp:79-158 | waiters are served in the order they queued, and each contended unlock hands over exactly once, to a waiter or through the token |
| `CacheLock.NoDeadlock` | cache/vm_cache_lock.cpp:45-218 | in one lock by itself, while anyone contends, some thread inside can take a step |
| `CacheLock.DestroyExact` | cache/vm_cache_lock.cpp:26-43 | destroying keeps the lock consistent if and only if every contender is in the queue |
| `CacheLock.DestroyStrands` | cache/vm_cache_lock.cpp:26-43 | a run of two threads after which destroying the lock leaves a contender that the counter no longer counts |
| `LockSwitches.SysStepInv` | cache/vm_cache_lock.cpp:125-195 | with any number of locks sharing spin locks through the hash, every step of every thread keeps each lock consistent, each spin lock with one owner, and each thread in one operation or one switch |
| `LockSwitches.SysRunInv` | cache/vm_cache_lock.cpp:125-195 | so that holds in every state of every run |
| `LockSwitches.MovesOrWaits` | cache/vm_cache_lock.cpp:132-135 | a thread with a spin lock can take its next step if and only if it is not in SwitchFromLock waiting for a second one |
| `LockSwitches.MovesOrCircle` | cache/vm_cache_lock.cpp:170-195 | when spin locks are taken, none of their owners can move if and only if all of them are switching and wait for each other |
| `LockSwitches.CircleStays` | cache/vm_cache_lock.cpp:170-195 | threads that wait for each other still do after any step of anyone |
| `LockSwitches.CircleForEver` | cache/vm_cache_lock.cpp:170-195 | they take no step in the rest of the run |
| `LockSwitches.RankedNoCircle` | cache/vm_cache_lock.cpp:170-195 | if all switches go down in some order of the spin locks, no threads wait for each other |
| `LockSwitches.SwitchesDeadlock` | cache/vm_cache_lock.cpp:6-19 | a run in which two threads switch between four different locks and wait for each other through the hash |
| `WaiterQueue.Queue.Enqueue` | cache/vm_cache_lock.cpp:86-97 | linking a node behind the cached last one appends to the sequence of waiting threads |
| `WaiterQueue.Queue.Dequeue` | cache/vm_cache_lock.cpp:141-147 | unlinking the first node takes the longest waiting thread off, and the new first node knows the last one |
| `PageReservation.StepInv` | page_alloc.cpp:316-378 | every atomic step of reserving, waking, stealing, allocating, freeing, scrubbing and run allocation keeps the invariant and the number of pages |
| `PageReservation.RunInv` | page_alloc.cpp:1862-1965 | so both hold in every state of every run |
| `PageReservation.ReservationWarranty` | page_alloc.cpp:2231-2340 | free plus clear pages are exactly the unreserved ones plus all claims, no page is lost, and the panic about a missing reserved page is not reached |
| `PageReservation.ReservedPageExists` | page_alloc.cpp:2231-2340 | an allocating thread with a reservation finds a page in one of the two queues |
| `PageReservation.NoLostWakeUp` | page_alloc.cpp:338-378 | the unsatisfied counter is exact, the queue is sorted, and whenever someone waits the first waiter cannot use the free pages or somebody still owes the wake-up |
| `PageReservation.NobodyStuck` | page_alloc.cpp:1879-1963 | when all threads are idle or asleep, no waiter could take even one free page |
| `PageReservation.InsertSorted` | page_alloc.cpp:1902-1914 | inserting in front of the first waiter it precedes keeps the queue in priority order |
| `PageReservation.EnqueueQueue` | page_alloc.cpp:1896-1914 | joining keeps the queue sorted, complete and without repetition |
| `PageReservation.ZeroMeansOwed` | page_alloc.cpp:372-378 | an unsatisfied counter of zero with a waiter about means the lock holder owes the wake-up, so skipping it is safe |
| `PageReservation.Amount` | page_alloc.cpp:316-336 | what is taken never touches the pages kept for other priorities and never exceeds the request |
| `Commitment.StepConserves` | cache/mm_anonymous_cache.cpp:481-546 | every step keeps available plus committed memory; available plus committed swap space is kept if and only if the step is not a fault that finds part of a page |
| `Commitment.RunConserves` | cache/mm_anonymous_cache.cpp:844-913 | in every run of any number of caches, what is available and what is committed add up to what there was, less what faults dropped |
| `Commitment.WholeRunConserves` | cache/mm_anonymous_cache.cpp:481-546 | with whole pages throughout nothing is ever lost |
| `Commitment.FaultLosesSwap` | cache/mm_anonymous_cache.cpp:500-515 | a run of one cache that ends with a hundred bytes of swap space less |
| `Commitment.StepInv` | cache/mm_anonymous_cache.cpp:844-913 | the swap part never exceeds the commitment, and a commitment reported as done has the size asked for, however other caches interleave |
| `Commitment.RamOnlyWithoutSwap` | cache/mm_anonymous_cache.cpp:852-869 | memory is asked for only if the swap reservation just made took the last of the swap space |
| `Commitment.MergeCommitFits` | cache/mm_anonymous_cache.cpp:544-546 | the commitment after a merge needs no memory and so cannot fail |
| `Commitment.ShrinkKeepsSwap` | cache/mm_anonymous_cache.cpp:874-893 | shrinking ends at the size asked for with as much of it in swap space as before allows |
| `Commitment.Available.ReserveSwap` | cache/mm_anonymous_cache.cpp:183-197 | gives all of the amount or all there is |
| `Commitment.Anonymous.Commit` | cache/mm_anonymous_cache.cpp:844-913 | ends with exactly the size asked for and the largest possible swap share, or fails with the swap space used up and too little memory; nothing is lost in either case |
| `Commitment.Anonymous.Fault` | cache/mm_anonymous_cache.cpp:481-528 | a page the cache may lack is paid for before it is made: from the precommitted pages, from what is committed beyond its pages, or with one more page and never more; present pages, guard hits and caches that may not overcommit change nothing; swap space is lost if and only if a page had to be committed and less than a page of it was left |
| `Commitment.Anonymous.TakeOver` | cache/mm_anonymous_cache.cpp:538-546 | the consumer holds both commitments cut down to its size, and all that was cut is available again |
| `KernelRanges.Ld` | aspace/VMKernelAddressSpace.cpp:29-47 | the loop computes the index of the highest bit |
| `KernelAddressSpace.KernelSpace.constructor` | aspace/VMKernelAddressSpace.cpp:80-112 | one free range covers the space, in the right free list |
| `KernelAddressSpace.KernelSpace.InsertRange` | aspace/VMKernelAddressSpace.cpp:565-584 | the range goes behind the last one that starts at or before it, a free one into the list for its size, and list and tree agree on the place unless a range starts there already |
| `KernelAddressSpace.KernelSpace.AllocateAt` | aspace/VMKernelAddressSpace.cpp:676-735 | taking a piece from the head, tail, middle or all of a range keeps tiling, tree and free lists; without memory for the pieces nothing changes |
| `KernelAddressSpace.KernelSpace.Allocate` | aspace/VMKernelAddressSpace.cpp:223-260 | a found spot lies in one usable range, at the exact or an aligned address, and only that range is split; a failed request changes nothing, and with memory for two range objects it means there was no room; a request for nothing fails |
| `KernelAddressSpace.KernelSpace.Reserve` | mm.cpp:4620-4639 | for any request, also one for nothing: a reservation inside one usable range, or nothing changes |
| `KernelAddressSpace.KernelSpace.FindExact` | aspace/VMKernelAddressSpace.cpp:903-928 | finds the usable range around an exact address, and fails only if there is none |
| `KernelAddressSpace.KernelSpace.FindSpot` | aspace/VMKernelAddressSpace.cpp:752-853 | base-address, randomized and any-address requests with all their fallbacks end at an aligned spot in one free range, and fail only if no range of the free lists searched has room |
| `KernelAddressSpace.KernelSpace.FindFrom` | aspace/VMKernelAddressSpace.cpp:771-796 | finds the first free range with room from an address on, and fails only if none has |
| `KernelAddressSpace.KernelSpace.FindAny` | aspace/VMKernelAddressSpace.cpp:803-837 | finds room in the smallest free list that has any, and fails only if no range of the lists searched has |
| `KernelAddressSpace.KernelSpace.FindInList` | aspace/VMKernelAddressSpace.cpp:818-836 | a whole free list is searched, in whatever order |
| `KernelAddressSpace.KernelSpace.FreeRange` | aspace/VMKernelAddressSpace.cpp:936-993 | the range becomes free, joined with free neighbours on either side; no two free ranges adjoin |
| `KernelAddressSpace.KernelSpace.ResizeArea` | aspace/VMKernelAddressSpace.cpp:307-383 | in every case of shrinking and growing the structures are right afterwards if and only if something of the area is left, and a refused resize changes nothing |
| `KernelAddressSpace.KernelSpace.ShrinkAreaHead` | aspace/VMKernelAddressSpace.cpp:385-435 | the same for cutting off a head: right afterwards if and only if something of the area is left |
| `KernelAddressSpace.KernelSpace.LookupArea` | aspace/VMKernelAddressSpace.cpp:197-206 | returns the area around an address if and only if there is one |
| `KernelAddressSpace.KernelSpace.Unreserve` | aspace/VMKernelAddressSpace.cpp:483-516 | of what is in use, exactly the reservations inside the address range are gone, although freeing joins ranges while the loop walks over them; also for an empty range, which at address zero wraps around and means all |
| `KernelRanges.SearchedListsFit` | aspace/VMKernelAddressSpace.cpp:803-853 | every range in a free list that is searched is large enough |
| `KernelRanges.SkippedListsSmall` | aspace/VMKernelAddressSpace.cpp:803-853 | ranges in the lists skipped are below the next power of two of the size |
| `KernelRanges.RefusedMeansSmall` | aspace/VMKernelAddressSpace.cpp:803-853 | a refused page-aligned request for any address means every free range is below the next power of two |
| `KernelRanges.IndexInBounds` | aspace/VMKernelAddressSpace.cpp:93-105 | every range of the space has a free list |
| `KernelRanges.ReplaceOk` | aspace/VMKernelAddressSpace.cpp:996-1096 | replacing part of the tiling by an equal span keeps all checked structures if the free lists follow |
| `KernelRanges.SplitOk` | aspace/VMKernelAddressSpace.cpp:676-735 | the pieces of a split keep the structures |
| `KernelRanges.JoinedOk` | aspace/VMKernelAddressSpace.cpp:936-993 | freeing and joining keeps the structures |
| `KernelRanges.ResizedOk` | aspace/VMKernelAddressSpace.cpp:307-383 | resizing keeps the structures |
| `KernelRanges.BeheadedOk` | aspace/VMKernelAddressSpace.cpp:385-435 | cutting off a head keeps the structures |
| `KernelRanges.ResizedTiles` | aspace/VMKernelAddressSpace.cpp:307-383 | a resize that succeeds leaves a tiling if and only if the new size is not zero |
| `KernelRanges.BeheadedTiles` | aspace/VMKernelAddressSpace.cpp:385-435 | so does cutting off a head |
| `KernelRanges.SplitTilesExactly` | aspace/VMKernelAddressSpace.cpp:676-735 | and taking pages out of a range |
| `KernelRanges.SplitBusy` | aspace/VMKernelAddressSpace.cpp:604-735 | allocating puts exactly the new range into use |
| `KernelRanges.FreedBusy` | aspace/VMKernelAddressSpace.cpp:936-993 | freeing takes exactly that range out of use |
| `KernelRanges.ResizedBusy` | aspace/VMKernelAddressSpace.cpp:307-383 | of what is in use, a resize changes the area, at its old base, and when it grows the range it takes from |
| `KernelRanges.BeheadedBusy` | aspace/VMKernelAddressSpace.cpp:385-435 | of what is in use, cutting off a head changes that area only, which still ends where it ended |
| `KernelRanges.ResizeKeepsAreas` | aspace/VMKernelAddressSpace.cpp:278-353 | a resize that succeeds leaves all other areas alone if and only if CanResizeArea would have allowed it |
| `KernelRanges.ResizeSwallows` | aspace/VMKernelAddressSpace.cpp:355-383 | two areas: growing the first one swallows the second, or cuts off its first page |
| `KernelRanges.BusyDetermines` | aspace/VMKernelAddressSpace.cpp:996-1096 | two tilings without adjoining free ranges and with the same ranges in use are the same |
| `KernelRanges.AllocateThenFree` | aspace/VMKernelAddressSpace.cpp:604-993 | allocating from a free range and freeing again restores the tiling |
| `MetaChunks.MetaChunk.constructor` | slab/mm_manager.cpp:68-89 | all chunks are free, once each, and the cached range is all of them |
| `MetaChunks.MetaChunk.Take` | slab/mm_manager.cpp:119-141 | the first free chunk leaves the list of words and the cached range stays all free |
| `MetaChunks.MetaChunk.TakeMany` | slab/mm_manager.cpp:362-386 | the run at the start of the cached range is unlinked wherever its chunks are on the list; the walk ends and leaves exactly the others |
| `MetaChunks.MetaChunk.Give` | slab/mm_manager.cpp:189-258 | the chunk is free, once, and the cached range is extended over its free neighbours, starts anew, or is left alone when no chunk is used any more |
| `MetaChunks.MetaChunk.ScanDown` | slab/mm_manager.cpp:189-258 | the pointer test finds the lowest chunk from which all are free |
| `MetaChunks.MetaChunk.ScanUp` | slab/mm_manager.cpp:189-258 | the pointer test finds the highest chunk up to which all are free |
| `MetaChunks.MetaChunk.Refer` | slab/mm_manager.cpp:743-845 | a used chunk's record can hold any reference that is not null and does not point into the records |
| `MetaChunks.FreeTestFinds` | mm_manager.h:227-232 | the range test on the word of a record says free if and only if the chunk is on the list |
| `MetaChunks.FreeTestDecides` | mm_manager.h:227-232 | for one word the test is right if and only if no reference is null or points into the records |
| `SlabMemory.RawIsNoLink` | mm_manager.h:227-232 | the end of a raw allocation is never taken for a link |
| `SlabMemory.CacheIsNoLink` | mm_manager.h:227-232 | a pointer to an object cache in memory from the slab, in this area or another, is never taken for a link |
| `MetaChunks.TakeOneOk` | slab/mm_manager.cpp:119-141 | the free list holds each unused chunk once and the cached range is free after one is taken |
| `MetaChunks.TakeRunOk` | slab/mm_manager.cpp:362-386 | the same after a run is taken |
| `MetaChunks.PutOk` | slab/mm_manager.cpp:189-258 | the same after a chunk is given back |
| `MetaChunks.ChainUnlink` | slab/mm_manager.cpp:367-376 | unlinking through the record before a chunk takes exactly that chunk off the linked list |
| `MetaChunks.IndexOfAddress` | mm_manager.h:215-225 | any address inside a chunk leads back to that chunk |
| `MetaChunks.MetaOfAddress` | slab/mm_manager.cpp:754-807 | an address leads back to its meta chunk |
| `MetaChunks.RunRoundTrip` | slab/mm_manager.cpp:754-807 | taking a run and giving it back chunk by chunk leaves the same chunks free |
| `MetaChunkLists.Manager.GetChunk` | slab/mm_manager.cpp:91-144 | the chunk was not allocated, only its state changes, every meta chunk is on the list its use count names, and the call fails exactly if no list has one |
| `MetaChunkLists.Manager.GetChunks` | slab/mm_manager.cpp:323-392 | consecutive chunks none of which was allocated; no other chunk's state changes; fails exactly if no partial meta chunk has them in its cached range and no free one has the room |
| `MetaChunkLists.RunMissed` | slab/mm_manager.cpp:332-340 | a full meta chunk given back chunks 0, 2 and 3 has two chunks in a row that the search does not find |
| `MetaChunkLists.Manager.FreeChunk` | slab/mm_manager.cpp:189-258 | exactly that chunk is no longer allocated, and its meta chunk moves to the list its use count names now |
| `MetaChunkLists.Manager.FindRange` | slab/mm_manager.cpp:332-340 | the first meta chunk whose cached range is long enough, or none is |
| `MetaChunkLists.Manager.FetchMeta` | slab/mm_manager.cpp:96-117 | a free meta chunk is prepared for the size and put on its partial list; no chunk's state changes |
| `MetaChunkLists.Moved` | slab/mm_manager.cpp:91-144 | changing one meta chunk and moving it to its new list keeps all lists right |
| `MetaChunkLists.Manager.AddMeta` | slab/mm_manager.cpp:394-407 | a new meta chunk is on its free list, and no chunk's state changes |
| `SlabMemory.MemoryManager.AllocateChunks` | slab/mm_manager.cpp:574-657 | the chunks handed out belonged to nobody; with a spare or new area at hand the call cannot fail |
| `SlabMemory.MemoryManager.AddArea` | slab/mm_manager.cpp:394-407 | all meta chunks of a new area are free, and nobody's chunks change |
| `SlabMemory.MemoryManager.Refer` | slab/mm_manager.cpp:743-845 | the first record says whose the allocation is; no other allocation changes |
| `SlabMemory.MemoryManager.GiveBack` | slab/mm_manager.cpp:800-803 | exactly the chunks of the allocation become free |
| `SlabMemory.MemoryManager.Free` | slab/mm_manager.cpp:301-321 | the address of a cache's chunk leads to exactly that chunk, which becomes free |
| `SlabMemory.MemoryManager.FreeRawOrReturnCache` | slab/mm_manager.cpp:754-807 | from an address alone: the object cache of the chunk it lies in; or exactly the chunks of the raw allocation it starts become free; or nothing, if no area has it |
| `SlabMemory.Located` | mm_manager.h:202-225 | any address inside a chunk leads to its area, its meta chunk and its index |
| `SlabMemory.RawSize` | slab/mm_manager.cpp:743-803 | the end of a raw allocation is odd and gives back its number of chunks |
| `SlabMemory.Others` | slab/mm_manager.cpp:659-850 | any sequence of allocations, namings and frees by others, who may have had any other allocation before, leaves an allocation as it is |
| `SlabMemory.RawRoundTrip` | slab/mm_manager.cpp:659-807 | AllocateRaw and, after anything others did while memory was mapped and later, with allocations they had before or made since, FreeRawOrReturnCache: exactly the chunks that were taken become free |
| `ObjectCache.ObjectInside` | slab/mm_allocator.cpp:173-212 | at any colour, objects lie inside their chunk and before its header, are aligned, and lead back to their chunk |
| `ObjectCache.ObjectsApart` | slab/mm_allocator.cpp:187-209 | different objects of a slab do not overlap |
| `ObjectCache.HashedHoldsTwo` | slab/mm_allocator.cpp:463-468 | a hashed cache has two or more objects per slab if and only if an object fills at most half a large chunk |
| `ObjectCache.RoundedSizeIs` | slab/mm_allocator.cpp:110-119 | the object size is the least multiple of the alignment that holds the object |
| `ObjectCache.ReturnMoves` | slab/mm_allocator.cpp:274-294 | the list moves put a slab on exactly the list its new free count names if and only if it has two or more objects |
| `ObjectCache.UsedSize` | slab/mm_allocator.cpp:270-294 | the objects handed out are as many as the slabs' free counts say |
| `ObjectCache.FreeBound` | slab/mm_allocator.cpp:250-264 | distinct free objects never exceed the slab, and if they are as many, all objects are free |
| `ObjectCache.EmptyUnused` | slab/mm_allocator.cpp:214-230 | no object of an empty slab is in use, so adding and releasing empty slabs changes no user's object |
| `ObjectCache.Cache.Totals` | slab/mm_allocator.cpp:749-814 | total, used and free counts are the sums over the slabs, and with neither partial nor empty slabs nothing is free |
| `ObjectCache.Cache.constructor` | slab/mm_allocator.cpp:121-141 | a cache without slabs |
| `ObjectCache.Cache.InitSlab` | slab/mm_allocator.cpp:173-212 | a slab with all objects free, each once, at the current colour; if a constructor fails, exactly the constructed objects are destroyed |
| `ObjectCache.Cache.NextColour` | slab/mm_allocator.cpp:179-185 | the colour stays aligned and within the spare bytes |
| `ObjectCache.Cache.AddSlab` | slab/mm_allocator.cpp:803-807 | a new empty slab is on the empty list and counted |
| `ObjectCache.Cache.ReserveStart` | slab/mm_allocator.cpp:749-799 | up to dropping the lock: enough objects are free, another thread must be waited for, the quota is used up, or a slab is begun; at most one thread that may wait and one that may not make slabs |
| `ObjectCache.Cache.ReserveMore` | slab/mm_allocator.cpp:363-384 | with the memory, or without it: one slab more is counted and the next one begun if there are still too few objects; it fails only without memory, on a constructor or at the quota |
| `ObjectCache.Cache.Take` | slab/mm_allocator.cpp:1090-1125 | hands out an aligned object nobody has, and finds none only if no slab has a free object |
| `ObjectCache.Cache.AllocateStart` | slab/mm_allocator.cpp:1070-1125 | hands out an object nobody has, if and only if one is free; otherwise says exactly whether to wait, to fail at the quota or to make a slab |
| `ObjectCache.Cache.AllocateAgain` | slab/mm_allocator.cpp:1101-1107 | the same after waiting for another thread, again with the exact next step |
| `ObjectCache.Cache.AllocateMore` | slab/mm_allocator.cpp:1101-1125 | with the memory for a slab it hands out an object nobody has; without it the call fails, and all objects are used if and only if they were when the lock was taken again |
| `ObjectCache.Cache.ReturnObject` | slab/mm_allocator.cpp:233-295 | exactly that object is no longer in use; says exactly when an empty slab is given back, which with few empty slabs is when the reserve still needed it |
| `ObjectCache.Cache.TrimStart` | slab/mm_allocator.cpp:881-888 | an empty slab goes if and only if more than the minimum are there and the reserve stays; it is off the list and still counted |
| `ObjectCache.Cache.TrimEnd` | slab/mm_allocator.cpp:889-890 | then it is counted off, and the count of empty slabs is exact again whatever others did in between |
| `ObjectCache.Run` | slab/mm_allocator.cpp:749-1125 | over any interleaving of allocations, reservations, frees and trims, lists, counters and handed out objects agree, with what is in flight; what is used and promised is within the quota in every state if and only if no step begins a slab for which there is no room; otherwise the excess is one slab at most |
| `ObjectCache.Once` | slab/mm_allocator.cpp:363-384 | one step from within the quota, promised slabs counted, stays within it if and only if it does not begin a slab for which those already being made leave no room |
| `ObjectCache.OverQuota` | slab/mm_allocator.cpp:363-384 | two threads that each found room for a slab in a quota of one |
| `ObjectCache.FailsWithOneFree` | slab/mm_allocator.cpp:1101-1104 | an allocation that fails although another thread freed an object meanwhile |
| `ObjectCache.OneObjectSlab` | slab/mm_allocator.cpp:274-294 | a slab of one object is empty and still on the list of full ones |
| `Depot.StepInv` | slab/mm_depot.cpp:116-160 | a CPU's previous magazine is missing, empty or full; full magazines are full and empty ones empty; counts bound the lists |
| `Depot.ExchangeAsserts` | slab/mm_depot.cpp:116-160 | in every state of every run both assertions of the exchanges hold |
| `Depot.StepKeeps` | slab/mm_depot.cpp:222-353 | every step keeps how often each object is anywhere: in a magazine, with a user, in flight or in a slab |
| `Depot.SlackStep` | slab/mm_depot.cpp:309-353 | counts drift from the lists by exactly what emptying the depot detaches, and by nothing else |
| `Depot.RunKeeps` | slab/mm_depot.cpp:222-353 | in every state of every run: invariant, no object lost or doubled, counts at least the list lengths |
| `Depot.HandedOutOnce` | slab/mm_depot.cpp:222-252 | in every run an object that exists once is in exactly one place, through any number of trips to the slabs and back; while it is in use it is in no magazine, in nobody's hands and in no slab |
| `Depot.FullListStaysEmpty` | slab/mm_depot.cpp:309-353 | once the count of full magazines is at its maximum with none there, the depot never keeps one again |
| `Depot.FullListIsLost` | slab/mm_depot.cpp:309-353 | a run of three frees and one emptying after which the count of full magazines is at its maximum with none there |
| `FileCacheIo.CacheIo.constructor` | cache/fs_cache.cpp:521-541 | the first reservation is enough for the first gap |
| `FileCacheIo.CacheIo.Satisfy` | cache/fs_cache.cpp:485-509 | the gap before the current page goes through the hook once, within the vector array and the reservation, and the reservation left is enough for the rest |
| `FileCacheIo.CacheIo.CopyPage` | cache/fs_cache.cpp:586-642 | a page in memory is copied, and the next gap starts behind it |
| `FileCacheIo.CacheIo.Advance` | cache/fs_cache.cpp:647-651 | the next page; a gap never outgrows the vector array |
| `FileCacheIo.CacheIo.GoOn` | cache/fs_cache.cpp:644-660 | on to the next page, and a gap that fills the vector array is dealt with at once |
| `FileCacheIo.CacheIo.Finish` | cache/fs_cache.cpp:663-667 | the rest goes through the hook; the reservation is kept if and only if that reads from the file without a buffer |
| `FileCacheIo.CacheIo.Step` | cache/fs_cache.cpp:546-661 | one turn, whatever page lookup, waiting and hooks bring: only a busy page keeps the turn from being a page on, only the last page completes the call, and only a hook that fails makes it fail |
| `FileCacheIo.CacheIo.Run` | cache/fs_cache.cpp:511-667 | for every pattern of cached, uncached, busy and vanishing pages the request is covered exactly once and in order, all of it on success and a prefix otherwise; with hooks that succeed it completes with the turn for its last page; the reservation is kept if and only if request, last page and last reading of memory say so |
| `FileCacheIo.OneLast` | cache/fs_cache.cpp:546-661 | which turn deals with the last page is determined by the request and what the turns find |
| `FileCacheIo.KeepsReservation` | cache/fs_cache.cpp:511-667 | sixteen uncached pages read without a buffer while memory is low leave pages reserved |
| `FileCacheIo.EachByteOnce` | cache/fs_cache.cpp:511-667 | each byte of the covered range is in exactly one piece |
| `FileCacheIo.GapFits` | cache/fs_cache.cpp:485-509 | a hook call never needs more vectors or reserved pages than there are |
| `FileCacheIo.EnoughAfter` | cache/fs_cache.cpp:485-509 | what is reserved again after a gap suffices for what follows |
| `WriteBatch.Transfer.SetTo` | page_alloc.cpp:938-952 | a transfer of one page |
| `WriteBatch.Transfer.AddPage` | page_alloc.cpp:954-999 | at either end, in an old or a new vector: the flattened vectors are exactly the frames of the page range, in order |
| `WriteBatch.Transfer.MakeRoom` | page_alloc.cpp:981-983 | moving the vectors up changes no frame |
| `WriteBatch.GrowLast` | page_alloc.cpp:958-965 | growing the last vector appends one frame |
| `WriteBatch.GrowFirst` | page_alloc.cpp:967-975 | growing the first vector downwards prepends one frame |
| `WriteBatch.AddVector` | page_alloc.cpp:977-996 | a new vector appends one frame |
| `WriteBatch.WriterRun.AddPage` | page_alloc.cpp:1054-1064 | the transfers partition the pages of the run, in order |
| `WriteBatch.WriterRun.Finish` | page_alloc.cpp:1066-1110 | each page ends as the transfer it is in says: clean if that reached its last page, else freed if its cache was shrunk, else modified again; only the last ones are counted as failed |
| `WriteBatch.WrittenInFull` | page_alloc.cpp:1017-1024 | a page is clean only if all pages before it in its transfer were written in full and it at least in part |
| `WriteBatch.OwnPages` | page_alloc.cpp:1066-1110 | the pages between two totals are exactly those of that transfer |
| `WriteBatch.PartitionExtend` | page_alloc.cpp:1054-1064 | a page that joins the last transfer keeps the partition |
| `WriteBatch.PartitionNew` | page_alloc.cpp:1054-1064 | a page that starts a transfer keeps the partition |
| `WriteBatch.WriteRange` | page_alloc.cpp:1979-2071 | every modified page gets a wrapper of the ring that is not active at that moment, and at the end every page was written and none is active |
| `PageRunSearch.FindRun` | page_alloc.cpp:2552-2654 | without a boundary, or with memory below frame 2^32: ends; a run that is returned fits all limits and can be taken; if none is, every run that fits contains a page in use or one that failed |
| `PageRunSearch.FirstMissing` | page_alloc.cpp:2626-2634 | the first page of a run that cannot be taken, if there is one |
| `PageRunSearch.AdjustIs` | page_alloc.cpp:2598-2611 | the adjusted start is the least one that is aligned and crosses no boundary |
| `PageRunSearch.AlignUpIs` | page_alloc.cpp:2601-2603 | the least multiple of the alignment from a page on |
| `PageRunSearch.BlockStart` | page_alloc.cpp:2605-2608 | a run that crosses a boundary must start at or after it |
| `PageRunSearch.MaskExact` | page_alloc.cpp:2574-2608 | the start the 32-bit mask computes is the least admissible one if and only if the run need not move for the boundary or ends below frame 2^32 |
| `PageRunSearch.MaskLosesFrames` | page_alloc.cpp:2605-2608 | above it a run across a boundary is sent back to the first pages of memory |

## Left out

- Memory-order weakness: atomic steps are sequentially consistent; liveness under the scheduler is not stated.
- `mark_page_range_in_use`, the boot allocator, memory hotplug and the choice between memory zones.
- The page daemon, page writer and scrubber choose pages freely: they are nondeterministic steps.
- `unmap_address_range`, `cut_area`, `vm_set_area_protection` and `mprotect`: the copy-on-write theorem is about faults, stores, copies, merges and page-out.
- CopyOnWrite: modelled on values, each fault, copy, merge, page-out and freed slot one step, with the update in place in AnonymousCache and VmCache; one area per cache; slots are filed and freed one at a time; shared areas and per-page protections are not modelled, and busy pages do not occur between steps.
- VmCache: `virtual_last_page`, page events and the reverse map are not modelled.
- AnonymousCache.Anonymous.Merge: the source's pages and slots lie in its virtual range.
- AnonymousCache: block and page part of the merge only; the commitments it takes over are in module Commitment.
- Adoption.Adopt: the destination has no page and no slot where something is moved to, as its callers provide.
- SwapRange: how callers round sizes to pages, and what they do to resident pages, is not part of it; which pages are busy is a parameter.
- CacheGraph: `AddConsumer` takes an older cache as source, as all callers do, so that chains cannot be cyclic; waiting for locks and retrying in `Unlock` and `SwitchLock` are not modelled.
- LockSwitches: threads hold a lock for any time; that nested locking in the wrong order deadlocks is not about these locks.
- Commitment: adding and removing swap files is not modelled, waiting for memory is a step that succeeds or fails, and `Commit`, which only decides the size, is not modelled around `_Commit`.
- KernelAddressSpace.KernelSpace.Allocate: an exact request has a positive size, as `vm_reserve_address_range` (`KernelAddressSpace.KernelSpace.Reserve`) and the makers of areas ensure; that is the exact condition under which taking pages keeps the ranges in order (`KernelRanges.SplitTilesExactly`); addresses are in pages; `fFreeSpace`, reference counts of the space and the non-secure ranges are not modelled, and random numbers are parameters.
- The user address space.
- MetaChunkLists: freeing whole areas (`_FreeArea`) and the maintenance thread; a free meta chunk stays on its list.
- SlabMemory: creating an area is a parameter, mapping memory a step that succeeds or fails between two others; raw allocations larger than a large chunk are areas and not part of the model.
- ObjectCache: waking the threads that wait for a slab, debug fill patterns and the hash table of large caches are not modelled; a thread that waits goes on with `AllocateAgain` or `ReserveStart`.
- ObjectCache.Cache.AllocateStart: the depot that is asked first is module Depot.
- ObjectCache.Cache.ReturnObject: the object is one that was handed out and slabs hold two or more objects; a small cache whose constructor fails does not give its chunk back, which is not part of the cache's state.
- Depot: modelled on values, as steps of a state machine, because CPUs interleave; which CPU a thread runs on is part of the step.
- FileCacheIo: hooks are steps that succeed or fail; `read_into_cache` and `write_to_cache` are not modelled inside, nor is `push_access`.
- WriteBatch: what a transfer's I/O does is its status and the bytes it reports.
- PageRunSearch.FindRun: if there is a boundary, the memory ends below frame 2^32 less alignment and length, beyond which the search can be sent back to where it has been (`PageRunSearch.MaskExact` is the exact condition of one such step); pages that look takeable and fail are a parameter, so a request may fail although a run exists; `vm_page_allocate_page_run` moving on to further segments is not modelled.
- Syscalls, user copies, the OOM killer, translation maps, the VFS and debugger commands.
