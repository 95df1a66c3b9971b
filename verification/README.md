# A verified model of the kernel and hypervisor core

This project models the parts of the lk-based hypervisor that carry the most state, and proves
what they promise over all inputs and all runs. A critical section (thread lock, timer lock, the
memory managers' mutexes, a ring's spin lock) is one step.

* **Page tables** (`PageTableSpec`, `PageTableShape`, `PageTableFacts`, `Arm64Mmu`): the recursive
  map, unmap and query of `arch/arm64/mmu.c` on a heap of tables, against a flat map from virtual to
  physical addresses, and which tables and blocks there are, for 4K, 16K and 64K pages. The tables follow the VMSAv8-64 format, section D5.3 of the Arm
  Architecture Reference Manual (DDI 0487).
* **Red-black tree and MMIO index** (`RbTree`, `Mmio`): parent-pointer insertion and erasure with
  rebalancing on a heap of nodes, and the index of disjoint address ranges built on it.
* **Scheduler** (`SchedSpec`, `SchedInv`, `SchedIdle`, `SchedRuns`, `SchedEffects`, `Sched`,
  `RoundRobin`): the queues, the bitmap, the wait queues and the running threads of `kernel/thread.c`;
  the operations as functions of one value, the invariant over every run of them, what each does to
  every thread and who runs after it, and a class that carries the fields and refines the functions.
* **Locks** (`WaitQueues`, `WaitFrames`, `Mutex`, `MutexSystem`, `MutexLock`, `Semaphore`, `SemaphoreLock`,
  `Event`, `EventLock`): the protocols over every interleaving of calls and timeouts, the code on top
  of the scheduler that takes exactly the steps of the protocol, and for mutexes the runs in which
  every other operation of the scheduler may come in between.
* **Timers** (`Timer`): the sorted queue on a 32-bit clock that wraps, with arbitrary callbacks.
* **Memory managers** (`Pmm`, `VmmSpec`, `Vmm`): the search for an aligned run of pages, the choice
  of a virtual address, and the ownership of every page on every path.
* **Block I/O and buffers** (`Bio`, `BcacheSpec`, `Bcache`, `Cbuf`, `HvEvent`): byte ranges on a block
  device, a write-back cache, a ring that is a FIFO, and the events sent through it.
* **Start-up hooks** (`Init`).

`Wrappers` and `Multiples` hold what several modules share.

## What turned out not to hold

The code is modelled as it is. Where a promise fails, the project gives the input and proves the
exact condition under which the promise holds.

* Unmapping part of a block entry clears all of it: `PageTableSpec.UnmapExactIffNoSplit`,
  `PageTableSpec.SplitExample`.
* A mutex or semaphore waiter that timed out still counts until it runs again. A release in that
  time finds nobody to wake, and a thread that then blocks waits for nobody:
  `Mutex.OrphanExample`, `Mutex.RunUnorphanedIff`, `Semaphore.StarvedExample`,
  `Semaphore.RunUnstarvedIff`.
* An MMIO range that ends at 2^64 or wraps past it is not seen to overlap a range it starts in or
  below, unless it wraps round into it: `Mmio.WrapMissesOverlap`, `Mmio.VerdictIff`.
* `thread_reset` initialises the thread's own wait queue anew, so a thread waiting to join it stays
  blocked on a queue that has forgotten it: `SchedInv.UnqueueKeepsIff`, `SchedInv.JoinerExample`.
* `thread_reset` also forgets a wait the thread is inside: the thread starts anew and never takes its
  count off the mutex, and its record says that a wait that timed out was granted:
  `MutexSystem.ResetKeepsIff`, `MutexSystem.ResetGrantsIff`, `MutexSystem.ResetExample`.
* `thread_set_priority` and the rescheduling wake-ups put their caller on a run queue even if it is an
  idle thread, which stays there if another thread is chosen: `SchedIdle.SetPriorityKeepsIff`,
  `SchedIdle.WakeOneKeepsIff`, `SchedIdle.WakeAllKeepsIff`, `SchedIdle.SetPriorityExample`,
  `SchedIdle.WakeExample`.
* The 32-bit page counts of `pmm_alloc_contiguous` let a large count past the bound check, out of
  the arena, and make a large alignment restart the search for ever: `Pmm.SearchRightIff`,
  `Pmm.AlwaysRightIff`, `Pmm.ReadsBeyond`, `Pmm.NeverEnds`, `Pmm.FarGoesWrong`.
* `vmm_alloc_contiguous` cuts its page count to 32 bits and does not give back the shorter run it
  then gets: `Vmm.AddressSpace.AllocContiguous`, `Vmm.LeakExample`.
* `bio_trim_range` and `bio_trim_block_range` let very large lengths through, and a direct
  transfer of 2^32 bytes or more leaves more than one block to the code for the last part of one:
  `Bio.TrimRangeIff`, `Bio.TrimBlockRangeIff`, `Bio.DirectLeavesPartIff`, with `Bio.TrimExample`,
  `Bio.TrimBlockExample` and `Bio.DirectExample`.
* When the device fails to read a block, `find_or_fill_block` puts its slot on the free list without
  taking it off the LRU list: `Bcache.Cache.FindOrFill`.
* The comment on `event_signal` has woken threads go to the end of the run queue without a reschedule, and
  run before the caller with one. The code puts them in front of their peers, and a woken thread of lower
  priority does not run: `SchedEffects.WakeOneIs`, `SchedEffects.PopAllIs`, `SchedEffects.WakeRunsIff`.
* An event sent with more than 50 outstanding is written in part: `HvEvent.SendWholeIff`,
  `HvEvent.SplitExample`.

## Model

| member | source | states |
|---|---|---|
| `PageTableSpec.FillTranslate` | arch/arm64/mmu.c:354-421 | mapping a range that is free turns every address of it into paddr + offset with the given attributes and changes the translation of no other address |
| `PageTableSpec.ClearTranslate` | arch/arm64/mmu.c:297-352 | unmapping takes away the translation of exactly those addresses whose page or block entry meets the range, and leaves all others |
| `PageTableSpec.UnmapExactIffNoSplit` | arch/arm64/mmu.c:337-344 | unmapping removes exactly the addresses of the range if and only if the range cuts through no block entry; a cut block is cleared whole |
| `PageTableSpec.SplitExample` | arch/arm64/mmu.c:337-344 | one block is mapped; unmapping its first page takes the second away too |
| `PageTableSpec.UnmapAllFreesEverything` | arch/arm64/mmu.c:297-352 | unmapping the whole space leaves no entry and no table below the top one |
| `PageTableSpec.ClearUndoesFill` | arch/arm64/mmu.c:354-431 | unmapping what was just mapped brings every translation back |
| `PageTableSpec.RollbackMeaning` | arch/arm64/mmu.c:424-430 | after a failed turn of the map loop, unmapping the part already done brings every translation back, whatever tables the attempt leaves |
| `PageTableSpec.FillGrows` | arch/arm64/mmu.c:240-277 | mapping only ever adds tables, so what a map needs is bounded before it starts |
| `PageTableShape.ClearLeavesNone` | arch/arm64/mmu.c:330-336 | after unmapping, no table that the range meets is without an entry, whatever tables there were before |
| `PageTableShape.ClearTidy` | arch/arm64/mmu.c:330-336 | if every table had an entry, every table has one after unmapping |
| `PageTableShape.FillTidy` | arch/arm64/mmu.c:387-421 | so it is after mapping |
| `PageTableShape.ComesBack` | arch/arm64/mmu.c:297-431 | over tables that all have an entry, mapping and then unmapping a range brings back the very same tables |
| `PageTableShape.FillOkIff` | arch/arm64/mmu.c:387-407 | over such tables nothing is in the way of a map exactly when no address of the range is translated |
| `PageTableShape.FillLargest` | arch/arm64/mmu.c:385-416 | each address of a mapped range is translated by the largest block around it that lies in the range, suits the physical address and is allowed |
| `PageTableShape.LeftoverCount` | arch/arm64/mmu.c:424-431 | what a failed map may leave behind is at most one new table for each level |
| `Arm64Mmu.PageTableIsClear` | arch/arm64/mmu.c:279-295 | true exactly when no entry of the table is valid |
| `Arm64Mmu.FreePageTable` | arch/arm64/mmu.c:224-238 | only a table without a valid entry is ever freed, and its page goes back to the pool |
| `Arm64Mmu.UnmapPt` | arch/arm64/mmu.c:297-352 | the in-place recursion computes the pure unmapping of the same range, whose tables PageTableShape describes, and no page is lost or gained by pool and tables together |
| `Arm64Mmu.GetPageTable` | arch/arm64/mmu.c:240-277 | gives the table below an entry, making an empty one from the pool if the entry is empty, none for a block entry or an empty pool; translations stay |
| `Arm64Mmu.MapPt` | arch/arm64/mmu.c:354-431 | succeeds exactly when the addresses are page aligned, no entry is in the way and the pool has enough pages for the new tables; then the result is the pure mapping, else every translation is as before |
| `Arm64Mmu.Map64` | arch/arm64/mmu.c:433-459 | the flat map after success is the old one with the range added, made of the largest blocks that fit; after any failure every translation is the old one and, over tables that all had an entry, there is at most one new table for each level; wrapped range checks included, and pool plus tables are conserved |
| `Arm64Mmu.MappableIff` | arch/arm64/mmu.c:354-431 | over tables that all have an entry, a map with aligned arguments succeeds exactly if no address of the range is mapped and there are enough pages for the tables |
| `Arm64Mmu.PoolComesBack` | arch/arm64/mmu.c:297-459 | over such tables, a map and the unmap of the same range leave the pool with as many pages as before |
| `Arm64Mmu.Unmap64` | arch/arm64/mmu.c:461-485 | fails exactly for a missing table or a range outside the space, changing nothing; the flat map loses exactly the range if and only if no block is cut; no table the range meets is left without an entry, and none at all if none was; unmapping all of it leaves no table |
| `Arm64Mmu.OutOfSpaceIs` | arch/arm64/mmu.c:444-448 | the wrapped 64-bit range test is true exactly when the range leaves the space |
| `Arm64Mmu.Query` | arch/arm64/mmu.c:83-156 | the walk gives the translation of the flat map, not-found exactly where there is none, out-of-range exactly outside the address space |
| `RbTree.Tree.RotateLeft` | hv/utils/rbtree.c:27-48 | the pointers after the rotation represent the rotated tree, with the same nodes in the same order |
| `RbTree.Tree.RotateRight` | hv/utils/rbtree.c:50-71 | the mirror image |
| `RbTree.Tree.LinkNode` | hv/hv_mmio.c:90-91 | a red leaf in the empty place, everything else in place |
| `RbTree.Tree.InsertColor` | hv/utils/rbtree.c:73-136 | after a red leaf was linked: same nodes in the same order, parent pointers consistent, no red node with a red child, equal black heights, black root |
| `RbTree.Tree.EraseTurnLeft` | hv/utils/rbtree.c:147-178 | one turn of the upward loop for a left child that is one black short: it ends, or moves the shortage up, in every sibling case |
| `RbTree.Tree.EraseTurnRight` | hv/utils/rbtree.c:179-213 | the mirror image |
| `RbTree.Tree.EraseColor` | hv/utils/rbtree.c:139-217 | the loop ends and leaves a red-black tree with the same nodes in the same order |
| `RbTree.Tree.Erase` | hv/utils/rbtree.c:219-284 | the order loses exactly the given node, and the tree is red-black again with consistent parent pointers |
| `RbTree.Tree.First` | hv/utils/rbtree.c:361-372 | the first node in order, none for an empty tree |
| `RbTree.Tree.Next` | hv/utils/rbtree.c:387-414 | the node at the next place of the in-order sequence, none after the last and none for a node marked as outside any tree |
| `RbTree.HeightBound` | hv/utils/rbtree.c:73-284 | a red-black tree of n nodes has height at most 2 log2(n + 1), stated as 2^height <= (n + 1)^2 |
| `RbTree.PlugRB` | hv/utils/rbtree.c:73-284 | a subtree of the right black height fits into its context: the whole is red-black |
| `Mmio.Space.Register` | hv/hv_mmio.c:46-103 | for every range, wrapping or not, refused exactly when a registered one stops the walk, which for a range that ends below 2^64 is overlap; the registered ranges grow by the new one only and stay disjoint and in order exactly if it ends below 2^64 |
| `Mmio.Space.Find` | hv/hv_mmio.c:105-143 | for every access, the one registered range at which the walk stops and both tests hold, none exactly when there is none; for a non-empty access below 2^64 that is the range containing it |
| `Mmio.CoverUnique` | hv/hv_mmio.c:105-143 | at most one registered range contains a non-empty access |
| `Mmio.WrapMissesOverlap` | hv/hv_mmio.c:70-88 | the verdict against one range is overlap exactly when the new range ends below 2^64, lies above the registered one or wraps round into it |
| `Mmio.VerdictIff` | hv/hv_mmio.c:70-88 | the same for all registered ranges together |
| `Mmio.TopOfMemoryExample` | hv/hv_mmio.c:70-88 | a range that ends at 2^64 and overlaps a registered one is not refused |
| `Mmio.FoundIffCovers` | hv/hv_mmio.c:113-137 | a lookup against one range is answered rightly exactly for an access below 2^64 that is not an empty one at an end of the range, or one that does not wrap round into it |
| `SchedSpec.PickIsBest` | kernel/thread.c:472-498 | what the choice of a thread means: it may run on this CPU, nothing that may comes before it in its queue or in a higher one, and no choice means there is none |
| `SchedSpec.InsertSettles` | kernel/thread.c:80-100 | queueing a ready thread that is on no queue keeps every other thread in place |
| `SchedSpec.LeaveCpu` | kernel/thread.c:652-671 | a thread that stops running leaves the invariant intact but for its CPU and its own place |
| `SchedSpec.ReschedRestores` | kernel/thread.c:510-541 | after a reschedule every CPU runs one running thread again, whatever became of the last one |
| `SchedSpec.BootHolds` | kernel/thread.c:915-986 | the invariant holds when every CPU runs its idle thread |
| `SchedInv.YieldKeeps` | kernel/thread.c:652-671 | thread_yield keeps the scheduler invariant |
| `SchedInv.PreemptKeeps` | kernel/thread.c:688-714 | thread_preempt keeps it |
| `SchedIdle.SetPriorityKeepsIff` | kernel/thread.c:890-907 | thread_set_priority keeps it exactly when its caller is not an idle thread, or no thread that may run on this CPU is queued above the new priority at the call |
| `SchedIdle.SetPriorityExample` | kernel/thread.c:890-907 | a state in which an idle thread that asks for priority 1 breaks it |
| `SchedInv.ResumeKeeps` | kernel/thread.c:316-338 | thread_resume keeps it |
| `SchedInv.SleepKeeps` | kernel/thread.c:814-830 | thread_sleep keeps it |
| `SchedInv.ReadyKeeps` | kernel/thread.c:788-804 | waking a sleeping thread keeps it |
| `SchedInv.BlockKeeps` | kernel/thread.c:1123-1156 | wait_queue_block keeps it |
| `SchedIdle.WakeOneKeepsIff` | kernel/thread.c:1172-1208 | wait_queue_wake_one keeps it exactly when it does not reschedule, nobody waits, its caller is not an idle thread, or at the call no thread that may run on this CPU is queued above the caller and the head of the wait queue is of lower priority or may not run here |
| `SchedInv.PopAllKeeps` | kernel/thread.c:1247-1263 | the loop of wait_queue_wake_all keeps it and leaves the queue empty with count 0 |
| `SchedIdle.WakeAllKeepsIff` | kernel/thread.c:1225-1274 | the same for wait_queue_wake_all, with every waiter in place of the head |
| `SchedIdle.WakeExample` | kernel/thread.c:1172-1274 | a state in which an idle thread that wakes a waiter and reschedules breaks it |
| `SchedIdle.IdleReschedIff` | kernel/thread.c:472-541 | with its idle thread on a run queue, a CPU that reschedules keeps the invariant exactly if nothing that may run there is queued above that thread or in front of it |
| `SchedInv.UnblockKeeps` | kernel/thread.c:1301-1322 | thread_unblock_from_wait_queue keeps it |
| `SchedInv.ExitKeeps` | kernel/thread.c:423-465 | thread_exit keeps it |
| `SchedInv.DetachKeeps` | kernel/thread.c:395-414 | thread_detach keeps it, for a live thread and for a dead one, whose structure goes |
| `SchedInv.ReapKeeps` | kernel/thread.c:361-390 | so does joining a dead thread that nobody else waits for |
| `SchedInv.UnqueueKeepsIff` | kernel/thread.c:233-266 | taking a thread off its run queue and resetting it keeps it exactly when nobody waits to join the thread, since the reset empties its wait queue; the bitmap bit stays |
| `SchedInv.JoinerExample` | kernel/thread.c:233-266 | a state with such a joiner |
| `SchedRuns.RunKeeps` | kernel/thread.c:80-1322 | in every state of every run of these operations each thread is on at most one queue, the ready threads are exactly the queued ones, the blocked ones exactly those on the queue they wait for, counts are lengths, each CPU has one running thread that may run there, and idle threads are pinned to their CPUs |
| `SchedRuns.BootRunKeeps` | kernel/thread.c:915-986 | so it is from boot on |
| `SchedRuns.RunDefined` | kernel/thread.c:80-1322 | no operation of a run meets a missing record, so its result is the next state |
| `SchedInv.OneCpuEach` | kernel/thread.c:540-543 | no thread runs on two CPUs |
| `SchedInv.OneQueueEach` | kernel/thread.c:80-100 | no thread is on two queues |
| `SchedEffects.YieldIs` | kernel/thread.c:652-671 | the yielder goes behind its peers without quantum, the CPU takes the first of the highest that may run on it, nobody else's record or place changes |
| `SchedEffects.PreemptIs` | kernel/thread.c:688-714 | the same, in front of its peers with quantum left and behind them without |
| `SchedEffects.SetPriorityIs` | kernel/thread.c:890-907 | the same, in front of the peers of its new priority, which is between 1 and 31 and the one asked for if that is |
| `SchedEffects.SleepIs` | kernel/thread.c:814-830 | the caller sleeps, on no queue, and the CPU takes the next; nobody else changes |
| `SchedEffects.SleepDoneIs` | kernel/thread.c:788-804 | the sleeper is ready in front of its peers; nobody else changes and nobody switches |
| `SchedEffects.ResumeIs` | kernel/thread.c:316-338 | so is a suspended thread, and the caller yields unless interrupts were off; any other thread is left alone |
| `SchedEffects.BlockIs` | kernel/thread.c:1123-1156 | the caller is blocked behind those who wait already, and the CPU takes the next; a zero timeout changes nothing |
| `SchedEffects.WakeOneIs` | kernel/thread.c:1172-1208 | who waited longest is ready in front of its peers with the given result; nobody else changes |
| `SchedEffects.WakeOneSwitches` | kernel/thread.c:1172-1208 | if the caller reschedules it is in front of its own peers but behind the woken thread, and the CPU takes the first of the highest |
| `SchedEffects.PopAllIs` | kernel/thread.c:1247-1263 | waking all makes each ready in front of its peers, who waited longest behind the others; nobody else changes |
| `SchedEffects.WakeAllSwitches` | kernel/thread.c:1225-1274 | if the caller reschedules it is behind those woken and in front of its other peers |
| `SchedEffects.WakeAllIs` | kernel/thread.c:1225-1274 | without a reschedule that is all that happens, and with nobody waiting nothing does |
| `SchedEffects.UnblockIs` | kernel/thread.c:1301-1322 | a blocked thread leaves its wait queue, where the others keep their order, and is ready in front of its peers |
| `SchedEffects.ExitIs` | kernel/thread.c:423-465 | the caller is dead and on no queue, its joiners are woken with success unless it is detached, and the CPU takes the next |
| `SchedEffects.DetachIs` | kernel/thread.c:395-414 | joiners are woken with ERR_THREAD_DETACHED; a dead thread goes with its wait queue, a live one is only marked |
| `SchedEffects.CreateIs` | kernel/thread.c:147-223 | a new thread is suspended, on no queue, with nobody to join it; nobody else changes |
| `SchedEffects.UnqueueIs` | kernel/thread.c:233-266 | the thread leaves its run queue, where the others keep their order, and is suspended |
| `SchedEffects.TickIs` | kernel/thread.c:773-785 | a regular thread loses one of its quantum and nothing else changes |
| `SchedEffects.YieldRunsOnIff` | kernel/thread.c:652-671 | a yielder runs on exactly if no peer or higher thread that may run on the CPU is queued |
| `SchedEffects.PreemptRunsOnIff` | kernel/thread.c:688-714 | a preempted thread with quantum left runs on exactly if no higher thread that may run on the CPU is queued; without quantum, if in addition no peer is |
| `SchedEffects.SetPriorityRunsOnIff` | kernel/thread.c:890-907 | a thread that changes its priority runs on exactly if none that may run on the CPU is queued above the new one |
| `SchedEffects.WakeRunsIff` | kernel/thread.c:1172-1208 | after a rescheduling wake-up the woken thread runs exactly if it may run here, is not below the caller, and none that may run here is queued above it |
| `SchedEffects.HighestRuns` | kernel/thread.c:472-498 | when a CPU has chosen, nobody who may run on it is left queued above the thread it runs |
| `Sched.Kernel.ScanQueue` | kernel/thread.c:480-494 | the scan of one queue stops at the first thread that may run on this CPU |
| `Sched.Kernel.GetTopThread` | kernel/thread.c:472-498 | the scan of the bitmap from its highest bit, stale bits and all, chooses as a scan of every queue would, and takes the thread off its queue |
| `Sched.Kernel.ThreadResched` | kernel/thread.c:510-618 | computes the reschedule of the specification |
| `Sched.Kernel.ThreadYield` | kernel/thread.c:652-671 | computes the yield of the specification and keeps the invariant |
| `Sched.Kernel.ThreadPreempt` | kernel/thread.c:688-714 | the same for a preemption: to the head of the queue with quantum left, else to its tail |
| `Sched.Kernel.ThreadSetPriority` | kernel/thread.c:890-907 | the same, with the priority clamped above idle and at the highest, and the invariant kept exactly as SetPriorityKeepsIff says |
| `Sched.Kernel.ThreadResume` | kernel/thread.c:316-338 | the same; only a suspended thread is queued |
| `Sched.Kernel.ThreadSleep` | kernel/thread.c:814-830 | the same |
| `Sched.Kernel.ThreadSleepHandler` | kernel/thread.c:788-804 | the same |
| `Sched.Kernel.WaitQueueBlock` | kernel/thread.c:1123-1156 | the same; a zero timeout changes nothing |
| `Sched.Kernel.WaitQueueWakeOne` | kernel/thread.c:1172-1208 | the same, returning how many were woken, and the invariant kept exactly as WakeOneKeepsIff says |
| `Sched.Kernel.WaitQueueWakeAll` | kernel/thread.c:1225-1274 | the same for a loop over the whole queue, and the invariant kept exactly as WakeAllKeepsIff says |
| `Sched.Kernel.UnblockFromWaitQueue` | kernel/thread.c:1301-1322 | the same, refusing a thread that is not blocked |
| `Sched.Kernel.ThreadExit` | kernel/thread.c:423-465 | the same; a detached thread wakes no joiner |
| `Sched.Kernel.ThreadDetach` | kernel/thread.c:395-414 | the same, for live and dead threads |
| `Sched.Kernel.ThreadCreate` | kernel/thread.c:147-223 | the same for a new thread |
| `Sched.Kernel.RemoveAndReset` | kernel/thread.c:233-266 | the same for removing and resetting a queued thread, the invariant being kept exactly when nobody waits to join it |
| `Sched.Kernel.ThreadTimerTick` | kernel/thread.c:773-785 | the quantum of a regular thread goes down by one, and a reschedule is asked for exactly when it is used up |
| `RoundRobin.YieldTurns` | kernel/thread.c:652-671 | a yield among unpinned threads of the top priority turns the ring of runner and queue by one place |
| `RoundRobin.YieldRotation` | kernel/thread.c:652-671 | with n peers queued, the i-th yield runs the i-th of them, all are different, and n + 1 yields restore the order |
| `RoundRobin.PreemptTurns` | kernel/thread.c:688-714 | among unpinned threads of the highest priority queued, a preemption leaves the order as it is while the running thread has quantum left, and turns it by one place when it has none |
| `WaitQueues.ReschedQuiet` | kernel/thread.c:510-541 | a reschedule changes no wait queue and no waiter's result |
| `WaitQueues.PreemptQuiet` | kernel/thread.c:688-714 | neither does a preemption |
| `WaitQueues.YieldQuiet` | kernel/thread.c:652-671 | nor a yield |
| `WaitQueues.BlockMoves` | kernel/thread.c:1123-1156 | blocking adds the caller to the end of one queue and changes no other wait |
| `WaitQueues.WakeMoves` | kernel/thread.c:1172-1208 | waking one frees the head of one queue with the given result and changes no other wait |
| `WaitQueues.WakeAllMoves` | kernel/thread.c:1225-1274 | waking all frees everybody on one queue with the given result and changes no other wait |
| `WaitQueues.ExpireMoves` | kernel/thread.c:1088-1104 | a timeout frees one thread of one queue with ERR_TIMED_OUT and changes no other wait |
| `WaitFrames.StepUndisturbedIff` | kernel/thread.c:233-1322 | of all operations on threads, exactly the stated ones change a wait queue or a result pending for a thread inside its wait: a block or wake-up or timeout on it, an exit, detach or reap of the thread it belongs to, a block or reap of a thread inside, and the reset of a thread inside whose wait failed |
| `WaitFrames.ExitMoves` | kernel/thread.c:423-465 | an exit frees everybody who waits to join the thread with success, nobody if it is detached, and changes no other wait |
| `WaitFrames.ResetDisturbs` | kernel/thread.c:233-246 | a reset changes a pending result exactly if the thread is inside the wait and its wait failed |
| `Mutex.RunKeeps` | kernel/mutex.c:64-126 | in every state of every run of acquires, releases and timeouts, count = owner + blocked + timed out but not yet back, and there is at most one owner |
| `Mutex.OrphanedExactlyBy` | kernel/mutex.c:76-93 | a step leaves somebody waiting without an owner exactly if it is a blocking acquire while the count is held up by timed-out threads only |
| `Mutex.OrphanStays` | kernel/mutex.c:76-126 | such a waiter stays without an owner until a wait times out |
| `Mutex.RunUnorphanedIff` | kernel/mutex.c:64-126 | a run never has a waiter without an owner if and only if it never makes such an acquire |
| `Mutex.OrphanExample` | kernel/mutex.c:64-126 | a concrete run of six steps after which a thread waits for nobody |
| `Mutex.HandOffIsFifo` | kernel/mutex.c:64-126 | in runs without timeouts a blocked thread has an owner to wait for, and owners followed by waiters are all who came, in the order they came |
| `MutexLock.MutexT.AcquireTimeout` | kernel/mutex.c:64-101 | the code, blocking through the scheduler, takes the acquire step of the protocol and returns at once exactly when it should: success means the caller is the holder and was the only one, a timeout changes nothing |
| `MutexLock.MutexT.AcquireReturn` | kernel/mutex.c:78-100 | coming back from the wait takes the return step, with the result of the wait: success means the caller is the holder, and only ERR_TIMED_OUT takes its count back |
| `MutexLock.MutexT.Release` | kernel/mutex.c:105-126 | the code, waking through the scheduler, takes the release step of the protocol; nobody is the holder after it and the count is one less |
| `MutexLock.MutexT.Expire` | kernel/thread.c:1088-1104 | a timeout takes the expiry step of the protocol |
| `MutexSystem.ActRefines` | kernel/mutex.c:64-126 | mutex calls among any other operations of the scheduler: each call takes its step of the protocol, and every other operation that neither disturbs the queue nor resets a waiter takes none |
| `MutexSystem.RunKeeps` | kernel/mutex.c:64-126 | in every state of every such run the scheduler invariant holds, the mutex has at most one owner and its count is owner + blocked + timed out but not yet back |
| `MutexSystem.MutualExclusion` | kernel/mutex.c:64-126 | in every such state, while a thread holds the mutex no thread inside the wait has it granted |
| `MutexSystem.ToldIsHolder` | kernel/mutex.c:64-101 | a call that returns success has made its caller the holder; one that returns a timeout has left holder and count as before the acquire |
| `MutexSystem.OneAtATime` | kernel/mutex.c:64-126 | over every such run, from the return of one call with success until a release no other call returns with success |
| `MutexSystem.ResetKeepsIff` | kernel/thread.c:233-258 | a reset thread starts anew and does not come back from a wait; the protocol's invariant survives the reset exactly when the thread was not inside the wait, else its count is never taken off |
| `MutexSystem.ResetGrantsIff` | kernel/thread.c:233-246 | by its record, a reset thread whose wait for the mutex timed out was granted it; that makes a second owner, against the protocol's invariant, exactly when the mutex has one |
| `MutexSystem.ResetExample` | kernel/thread.c:233-246 | a state in which a reset leaves a count behind and two owners on record |
| `Semaphore.Conservation` | kernel/semaphore.c:34-93 | over every run count + blocked + timed out but not yet back = initial value + posts - successful waits, and this is never negative |
| `Semaphore.StarvedExactlyBy` | kernel/semaphore.c:51-93 | a step leaves somebody waiting although a unit is available exactly if it blocks on a count kept down by timed-out threads only |
| `Semaphore.RunUnstarvedIff` | kernel/semaphore.c:34-93 | a run never does so if and only if it never makes such a wait |
| `Semaphore.NoTimeoutsNoStarvation` | kernel/semaphore.c:34-64 | without timeouts nobody waits while a unit is available |
| `Semaphore.StarvedExample` | kernel/semaphore.c:34-93 | a concrete run after which a thread waits with a unit available, and one more post does not wake it |
| `SemaphoreLock.SemaphoreT.Post` | kernel/semaphore.c:34-49 | the code takes the post step of the protocol and returns how many it woke |
| `SemaphoreLock.SemaphoreT.TimedWait` | kernel/semaphore.c:51-93 | the code takes the wait step of the protocol; success takes one unit and touches no thread, a timeout at once changes nothing |
| `SemaphoreLock.SemaphoreT.WaitReturn` | kernel/semaphore.c:83-93 | coming back from the wait takes the return step |
| `SemaphoreLock.SemaphoreT.TryWait` | kernel/semaphore.c:66-77 | takes a unit exactly when the count is positive |
| `Event.RunKeeps` | kernel/event.c:82-168 | in every state of every run nobody waits for an event that is signaled |
| `Event.OneThreadPerSignal` | kernel/event.c:82-147 | with auto-unsignal every signal not already pending lets one thread through, is taken back, or is still pending |
| `Event.SignalFreesAll` | kernel/event.c:138-142 | without it a signal frees everybody who waits, with success |
| `Event.StaysSignaled` | kernel/event.c:85-150 | without auto-unsignal an event stays signaled and nobody waits for it, however many come, until it is unsignaled |
| `Event.FirstUsesItUp` | kernel/event.c:89-93 | with it, the first to come takes the signal away |
| `EventLock.EventT.SignalEvent` | kernel/event.c:122-147 | the code, waking one or all through the scheduler, takes the signal step of the protocol |
| `EventLock.EventT.WaitTimeout` | kernel/event.c:82-104 | the code, blocking through the scheduler, takes the wait step of the protocol; the event stays signaled after it exactly if it was and is not auto-unsignal |
| `EventLock.EventT.WaitReturn` | kernel/event.c:97-104 | coming back from the wait takes the return step and gives the result it was woken with |
| `EventLock.EventT.Expire` | kernel/thread.c:1088-1104 | a timeout takes the expiry step of the protocol |
| `Timer.Compare` | lib/libc/include/sys/types.h:37-40 | within half the range of the 32-bit clock, comparing wrapped times is comparing times |
| `Timer.InsertKeeps` | kernel/timer.c:53-69 | the queue stays in deadline order, and a timer goes behind those due at the same time |
| `Timer.DueExact` | kernel/timer.c:213-219 | the timers the tick finds due are exactly those whose time has come |
| `Timer.SetMayDo` | kernel/timer.c:71-105 | a timer set with a delay of at least 1 is not due at the current tick and changes nothing about what is |
| `Timer.CancelMayDo` | kernel/timer.c:150-193 | cancelling keeps the order of the queue and of what is due |
| `Timer.MayDoBoth` | kernel/timer.c:234-239 | so does any sequence of such calls from a callback |
| `Timer.SetIs` | kernel/timer.c:71-105 | setting puts in one timer, due the delay after now, and leaves the others as they were and in their order; the hardware timer is set for it exactly if it comes first |
| `Timer.CancelIs` | kernel/timer.c:150-193 | cancelling takes out one timer and leaves the others as they were and in their order; the hardware timer is stopped with none left, set to the deadline or to now, whichever is later, for a new head, and left alone otherwise |
| `Timer.SetServed` | kernel/timer.c:71-105 | if the hardware timer goes off when the first timer is due, or at once if it is overdue, it does so after setting a timer |
| `Timer.CancelServed` | kernel/timer.c:150-193 | and after cancelling one |
| `Timer.QuietTick` | kernel/timer.c:196-278 | with callbacks that leave the timers alone a tick fires all that are due, takes the one-shot ones off, puts the periodic ones a period from now, and leaves the others as they were |
| `Timer.FireKeeps` | kernel/timer.c:221-252 | each firing takes one timer off what is due and adds none, periodic timers included |
| `Timer.FiredWereDue` | kernel/timer.c:211-253 | whatever the callbacks do, the timers fired are due ones, each once, in deadline order; if callbacks cancel nothing due, all due ones fire |
| `Timer.TimerState.InsertTimerInQueue` | kernel/timer.c:53-69 | the loop finds the place the specification names |
| `Timer.TimerState.TimerSet` | kernel/timer.c:71-105 | computes the specification and does to the queue and the hardware timer what SetIs says |
| `Timer.TimerState.TimerCancel` | kernel/timer.c:150-193 | computes the specification and does to the queue and the hardware timer what CancelIs says |
| `Timer.TimerState.TimerTick` | kernel/timer.c:196-278 | the loop ends, every deadline left is after now, and the one-shot timer is armed for the head of the queue |
| `Pmm.SkipMissesNone` | kernel/vm/pmm.c:310-323 | going on at the next aligned start after a taken page passes over no aligned free run |
| `Pmm.SearchRightIff` | kernel/vm/pmm.c:308-327 | with its 32-bit arithmetic, in an arena of any size and for every state of the page flags, the search stays inside, ends and is right exactly when there is a run in the first 2^32 pages, or the first aligned page is one where the search ends, or a page is taken whose next aligned page is one; the search ends at a page that 32 bits can hold, beyond the arena or with too little room behind it that 32 bits can tell |
| `Pmm.AlwaysRightIff` | kernel/vm/pmm.c:308-327 | for all states of the flags at once, in an arena of fewer than 2^31 pages: exactly when the first aligned page plus the count stays below 2^32, and the alignment is below 2^32 pages or the run too long for the arena |
| `Pmm.ReadsBeyond` | kernel/vm/pmm.c:310-315 | a count that wraps past the check, with no page taken, reads beyond the arena at the first turn |
| `Pmm.NeverEnds` | kernel/vm/pmm.c:314-323 | with an alignment of 2^32 pages or more and a taken page in the first run, the search is back at its first start after every turn |
| `Pmm.NextCutBack` | kernel/vm/pmm.c:319-320 | for any power of two, a next aligned page at 2^32 or beyond is cut back to the first start |
| `Pmm.FarGoesWrong` | kernel/vm/pmm.c:304-323 | a first aligned page at 2^32 or beyond is cut too, and the search starts at a page before it and never leaves that |
| `Pmm.SearchFrom` | kernel/vm/pmm.c:308-330 | under that condition the loop ends with the lowest aligned free run, or with none because there is none |
| `Pmm.FindRun` | kernel/vm/pmm.c:296-330 | the same from the rounding of the arena's base on |
| `Pmm.TakeAllKeeps` | kernel/vm/pmm.c:117-133 | allocating distinct free pages marks those and no others, and free lists and counts stay exact |
| `Pmm.GiveAllKeeps` | kernel/vm/pmm.c:207-225 | freeing distinct allocated pages clears those and no others, and free lists and counts stay exact |
| `Pmm.FirstPagesLeave` | kernel/vm/pmm.c:117-133 | allocating the first free pages leaves the rest of the free list in its order, and every arena where it is |
| `Pmm.GiveAllInFront` | kernel/vm/pmm.c:207-225 | each page given back is at the head of its arena's free list, in front of those given back before it; no arena moves or changes its size |
| `Pmm.PhysMem.AllocPages` | kernel/vm/pmm.c:106-138 | gives the first free pages of the first arena, as many as asked for or as it has |
| `Pmm.PhysMem.AllocContiguous` | kernel/vm/pmm.c:283-359 | a success is the lowest aligned free run of the first KMAP arena that has one; failure means no KMAP arena has one, and changes nothing |
| `Pmm.PhysMem.FreePages` | kernel/vm/pmm.c:199-229 | every page of the list that belongs to an arena goes back to the head of its free list and is counted, the others are dropped |
| `Pmm.PhysMem.AddArena` | kernel/vm/pmm.c:62-104 | the arenas stay in order of priority, and the new one has all its pages free in order |
| `VmmSpec.RegionInsideIff` | kernel/vm/vmm.c:43-64 | the wrapped tests are true exactly when the region lies in the address space |
| `VmmSpec.AlignUpIs` | kernel/vm/vmm.c:157-162 | aligning gives the least aligned address not below, or wraps exactly when there is none |
| `Multiples.RoundDownIsMask` | lib/libc/include/stdlib.h:32-33 | rounding down takes off the remainder |
| `VmmSpec.GapTooSmall` | kernel/vm/vmm.c:167-208 | a gap too small for its first aligned address holds no address that fits |
| `VmmSpec.InsertKeeps` | kernel/vm/vmm.c:110-150 | a region put in a gap that holds it leaves the list sorted and disjoint |
| `VmmSpec.AccountTake` | kernel/vm/vmm.c:456-540 | pages that were free and are handed out once are accounted for once |
| `VmmSpec.AccountGive` | kernel/vm/vmm.c:559-583 | pages held once and given back are free again, and held by nobody |
| `Vmm.AddressSpace.AddRegion` | kernel/vm/vmm.c:110-150 | succeeds exactly when the region is not empty, lies in the space and meets no other, and keeps the list sorted and disjoint |
| `Vmm.AddressSpace.CheckGap` | kernel/vm/vmm.c:167-208 | finds the first aligned address of a gap if the size fits there, and stops the search only when nothing later can fit |
| `Vmm.AddressSpace.AllocSpot` | kernel/vm/vmm.c:210-245 | the least aligned address whose range lies in the space and meets no region, and -1 exactly when there is none, wrap-around included |
| `Vmm.AddressSpace.AllocRegion` | kernel/vm/vmm.c:248-286 | a region where asked or at the least fitting address, else nothing changes |
| `Vmm.AddressSpace.Alloc` | kernel/vm/vmm.c:456-540 | on every path, errors included, each page stays free or with exactly one owner; success exactly when the arguments are good, the first arena has the pages and there is a place; then one region more, where asked or at the least fitting address, with as many pages as its size, and no more page tables than the mapping takes |
| `Vmm.AddressSpace.AllocContiguous` | kernel/vm/vmm.c:382-454 | the same with one aligned run of pages, except that ownership is kept exactly when the page count fits 32 bits, or what is left of it is zero or finds no run; the pages lost otherwise are named |
| `Vmm.LeakExample` | kernel/vm/vmm.c:415-421 | 2^44 + 4096 bytes lose a page |
| `Vmm.AddressSpace.FindRegion` | kernel/vm/vmm.c:542-557 | the region that contains the address, none exactly when no region does |
| `Vmm.AddressSpace.FreeRegion` | kernel/vm/vmm.c:559-583 | the region that contains the address goes and its pages become free; ownership stays exact |
| `Bio.TrimRangeIff` | lib/bio/bio.c:306-318 | the trimmed length is the part on the device exactly under a stated condition on the end of the range; a very large length escapes trimming |
| `Bio.TrimExample` | lib/bio/bio.c:306-318 | on a device of 4096 bytes, a length of 2^63 is not trimmed |
| `Bio.TrimBlockRangeIff` | lib/bio/bio.c:320-329 | the same for block ranges and 32-bit wrap-around |
| `Bio.TrimBlockExample` | lib/bio/bio.c:320-329 | on a device of 8 blocks, 2^32 - 1 blocks from block 1 on are not trimmed |
| `Bio.DirectLeavesPartIff` | lib/bio/bio.c:91-103 | the direct transfer leaves less than a block exactly when the length fits 32 bits |
| `Bio.DirectExample` | lib/bio/bio.c:91-103 | of 2^32 bytes the direct transfer moves none |
| `Bio.ReadAfterWrite` | lib/bio/bio.c:33-245 | a read gives back what was written, and elsewhere what was there |
| `Bio.BlockDevice.DefaultRead` | lib/bio/bio.c:33-127 | exactly the bytes asked for, for every alignment and for both the bounce-buffer and the direct path |
| `Bio.BlockDevice.DefaultWrite` | lib/bio/bio.c:129-245 | replaces exactly the bytes asked for, keeping the rest of the first and last block, on both paths |
| `Bio.BlockDevice.DefaultErase` | lib/bio/bio.c:247-272 | fills exactly the range with the erase byte |
| `Bio.BlockDevice.Read` | lib/bio/bio.c:358-370 | the part of the range that is on the device |
| `Bio.BlockDevice.Write` | lib/bio/bio.c:386-398 | writes the part of the range that is on the device and nothing else |
| `BcacheSpec.FlushOne` | lib/bcache/bcache.c:74-88 | writing a cached block back changes nothing a user sees |
| `BcacheSpec.Evict` | lib/bcache/bcache.c:147-163 | dropping a clean block changes nothing a user sees |
| `Bcache.Cache.FindBlock` | lib/bcache/bcache.c:108-130 | finds the one slot that holds the block, which goes from its place in the list to the tail, none exactly when the block is not cached |
| `Bcache.Cache.AllocBlock` | lib/bcache/bcache.c:133-164 | the head of the free list, which loses it and no other slot, else the least recently used slot that is not pinned, none exactly when there is no such slot or it cannot be written back; pinned slots stay, the others keep their order and the view is unchanged |
| `Bcache.Cache.SlotsCounted` | lib/bcache/bcache.c:41-71 | no slot is lost: the two lists together have as many as the cache |
| `Bcache.Cache.RoomIff` | lib/bcache/bcache.c:133-164 | unless the device fails, no slot can be had exactly if all the slots of the cache are pinned |
| `Bcache.Cache.FindOrFill` | lib/bcache/bcache.c:166-196 | the block gets a slot, nobody sees a difference and no pin count changes; an error exactly when the block is not cached and the device fails to read it, and then a slot is on both lists and the cache is no longer valid |
| `Bcache.Cache.ReadBlock` | lib/bcache/bcache.c:198-211 | gives the block as it is seen, and changes no block's view; the error case as for find_or_fill_block |
| `Bcache.Cache.GetBlock` | lib/bcache/bcache.c:213-231 | one pin more for the block and the same pins for all others; the slot's contents are what is seen; the error case as for find_or_fill_block |
| `Bcache.Cache.PutBlock` | lib/bcache/bcache.c:233-247 | unpins the slot once and changes nothing else |
| `Bcache.Cache.WritePinned` | lib/bcache/bcache.c:249-264 | a write through the pointer followed by mark-dirty changes the view of that block only and no pin |
| `Bcache.Cache.ZeroBlock` | lib/bcache/bcache.c:266-287 | the block reads as zeros, no other changes and no pin does; fails, changing nobody's view, exactly when no slot can be had |
| `Bcache.Cache.Flush` | lib/bcache/bcache.c:289-305 | the view stays and no slot changes but for its mark; success exactly when no changed block fails to be written, and then the device is exactly what the cache stood for |
| `Cbuf.UintSubMod` | lib/cbuf/cbuf.c:42-49 | the wrapped 32-bit difference of head and tail is the number of bytes held |
| `Cbuf.Ring.SpaceUsed` | lib/cbuf/cbuf.c:47-49 | the number of bytes held |
| `Cbuf.Ring.SpaceAvail` | lib/cbuf/cbuf.c:42-45 | 2^k - 1 less the number of bytes held |
| `Cbuf.WriteAppends` | lib/cbuf/cbuf.c:66-96 | copying into the room after the head, in any of its three cases, appends to the contents |
| `Cbuf.ReadDrops` | lib/cbuf/cbuf.c:134-150 | moving the tail past bytes, with or without wrap, takes them off the front of the contents |
| `Cbuf.Ring.Write` | lib/cbuf/cbuf.c:51-108 | appends as many bytes as fit, in order, and leaves the event signaled exactly when the ring is not empty |
| `Cbuf.Ring.Read` | lib/cbuf/cbuf.c:110-166 | removes the oldest bytes, in order, and leaves the event signaled exactly when the ring is not empty |
| `Cbuf.IncIsMod` | lib/cbuf/cbuf.c:20-21 | the next place in the ring is the sum modulo its size |
| `Cbuf.Ring.Peek` | lib/cbuf/cbuf.c:168-193 | the two regions one after the other are the contents |
| `Cbuf.Ring.WriteChar` | lib/cbuf/cbuf.c:195-215 | appends the byte exactly when there is room |
| `HvEvent.RingSize` | hv/hv_event.c:121-137 | the rings have 512 bytes |
| `HvEvent.CpuEvent.Send` | hv/hv_event.c:140-159 | appends the bytes of the event that fit, and succeeds exactly when all do |
| `HvEvent.CpuEvent.Handle` | hv/hv_event.c:89-112 | takes the oldest bytes and gives an event exactly when they are a whole one |
| `HvEvent.DecodeEncode` | hv/hv_event.c:89-159 | an event read back is the event written |
| `HvEvent.SendWholeIff` | hv/hv_event.c:140-159 | a send keeps events whole and in order exactly with at most 50 outstanding |
| `HvEvent.SplitExample` | hv/hv_event.c:140-159 | with 51 outstanding, the next event is cut |
| `HvEvent.NeverSplit` | hv/hv_event.c:89-159 | over every run with at most 32 events outstanding, the events handled are those sent first, in order, and the ring holds the others whole |
| `Init.Search` | top/init.c:43-74 | the inner loop, which knows only the last hook called, finds the first of the hooks not called yet, by level and then by place |
| `Init.InitLevel` | top/init.c:31-89 | calls the hooks with the flag and a level in the range exactly once each, by level and then by place, and ends |
| `Init.CallsUnique` | top/init.c:31-89 | there is only one such sequence of calls |
| `Init.CallsJoin` | top/main.c:71-136 | two ranges one after the other make the calls of one range over both |
| `Init.Boot` | top/main.c:71-136 | the ranges used at boot together make the calls of one range over all levels |

## Left out

- The bit encodings of descriptors and attributes, the 48-bit limit on output addresses, TLB maintenance, barriers, ASIDs and system registers: an entry is empty, a page or block with an address and attributes, or a table. Shifts and masks by powers of two are written as division and remainder.
- Arm64Mmu.Query: takes the address relative to the table it is given, so the choice between the kernel's and the user's table is not modelled.
- The augmentation callbacks of the red-black tree, `rb_last`, `rb_prev`, `rb_replace_node`: easier versions of what is proved.
- `hv_mmio_handler` with its sign extension, the vcpu and VM life cycle: they write thread states directly or depend on code that is not part of this model.
- `thread_block` and `thread_unblock` outside wait queues, stack and TLS contents, inter-processor interrupts and the preemption timer.
- The run-queue bitmap is a set of bit numbers; `__builtin_clz` is the choice of its greatest element.
- thread_sleep and wait_queue_block are modelled for a CPU that runs a thread other than its idle thread, as the source asserts.
- Mutex, semaphore and event destruction.
- Runs in which any other operation of the scheduler comes between the calls are stated for mutexes (`MutexSystem.RunKeeps`); for semaphores and events only the frame (`WaitFrames.StepUndisturbedIff`), which is about any wait queue.
- Timer.TimerState.TimerTick: the queue, `now` and the next deadlines of periodic timers lie within half the clock's range, which the comparison macros need; callbacks run on the same CPU and act as one step.
- A timer callback racing with a cancel on another CPU.
- Pmm.AlwaysRightIff: for arenas of fewer than 2^31 pages (8 TB); larger ones have the condition on the page flags of `Pmm.SearchRightIff`, which is for all sizes.
- Pmm.PhysMem.AllocContiguous: called where the search in every KMAP arena it comes to is right, which is the condition of `Pmm.SearchRightIff`; the other calls do not return or leave the arena.
- Pmm.PhysMem.AddArena: arenas are added before pages are allocated, so a page is named by its arena's place in the list.
- `pmm_alloc_range`, `pmm_alloc_kpages`, `vmm_reserve_space`, `vmm_alloc_physical`, address-space destruction: they add easier members. Addresses in `Pmm` are counted in 4 KB page frames.
- Vmm.AddressSpace.Alloc: what `arch_mmu_map` does is modelled as the number of page-table pages it takes for each page; the code ignores its errors. Other address spaces and page tables are one multiset of other owners.
- Bio.BlockDevice.DefaultRead: device transfers succeed; the same holds of writes and erases.
- Bcache.Cache.FindOrFill: running out of slots, which is an assertion in the code, is excluded by the caller; after a failed read the lists are shown as sequences that share a slot, not as the damaged links of one node; the statistics are not kept.
- Bcache.Cache.WritePinned: a write through a pinned pointer that is never marked dirty is not modelled.
- Cbuf.Ring.Read: the part under the lock; blocking until the event is signaled and trying again is not modelled. `cbuf_read_char` is a read of one byte.
- Ports, the virtio free list, evlog, boot arguments and images, the RISC-V and OpenRISC page tables: simpler forms of what is proved.
