# Verified model of the kernel and runtime exercises

The repository holds three small systems: a kernel module that hands out physical memory with a
buddy allocator and fills page tables on demand (`virtual_memory`), a set of locks, barriers and a
lock-free queue (`sync_tools`), and a cooperative user-level thread library with its hash table
(`user_threads`). This project models the parts of them that carry state through many steps and
proves what they keep.

- **Buddy allocator** (`BuddyBlocks`, `BuddyAllocator`, `PoolSetup`). The allocator keeps free
  lists, one tag bit per smallest block, and block headers inside the free memory. Tags of merged
  right halves go stale; the invariant is that tags and headers are right at the head of every
  current block. From it follow the soundness of the coalescing test, that no `BUG_ON` fires on a
  block that is out, and the canonical form: the free blocks are exactly the maximal aligned blocks
  that avoid the outstanding ones, whatever the history. The order of the lists, which decides what
  address a request gets, is pinned as well: last in, first out.
- **Synchronisation** (`LockFreeQueue`, `LockFreeCalls`, `LockFreeProgress`, `LockFreedom`,
  `Barrier`, `BarrierClient`, `RwLock`, `LockClients`). Interleavings of any number of threads over
  sequentially consistent words, one step per load, store or locked instruction. The queue is
  linearizable, each thread's events answering its calls in order, and lock-free with an explicit
  bound: among n threads some call returns within 7n^2 + 30n + 9 steps. The barrier holds threads
  together and cannot lose a waiter, and a round of n threads takes exactly 4n + 2 steps besides
  spinning. The reader/writer lock excludes as it should, in at most 6 steps for a read and 7 for a
  write besides spinning, and the checks in the drivers' thread functions never fail.
- **Thread scheduler** (`SchedulerModel`, `SchedulerRuns`, `Scheduler`). A state machine whose
  steps are the library calls, with the methods that carry them out in place. Every live thread is
  in exactly one place, every assertion of the code holds, a join returns what its target exited
  with, it is settled for every call who runs next and who queues up where, and an idle master
  means that everyone is done exactly if no join closed a ring.
- **On-demand paging** (`RegionMap`, `PageTables`, `FreeWalk`, `PagePools`, `OnDemand`,
  `TableTrim`, `PagingRuns`, `TableRuns`, `SharedRuns`). The region map tiles the region with no
  two free neighbours and allocates at the lowest fitting address. User pages come from the buddy
  pools and go back to them, tables come from the kernel. Any number of processes share the pools
  and the kernel's pages. On every run of their allocations, faults and releases, in any order,
  from ADD_MEMORY on, each process's tables are an unshared tree, no frame is lost, and none is at
  two pages, of one process or of two. A fault changes one page of the flat translation; the
  freeing walk unmaps what was asked, and the model says exactly how much more it unmaps and which
  tables it gives back.
- **Hash table** (`HashChains`, `HashTable`, `HashIterator`, `HashRuns`). Chains of entries in
  memory stand for a map through growth and removal, over any sequence of calls; an iteration that
  removes as it goes visits every entry once.

`Powers`, `Lists`, `Counting` and `Options` hold what the others share.

Imperative code is modelled by classes and methods (`BuddyMempool`, `PageMemory`, `MemMap`,
`Kernel`, `AddressSpace`, `Library`, `Table`, `Iter`) proved against functions and predicates on
values; concurrent code by state machines; whole-run results are lemmas over every run from the
initial state, or methods that make any sequence of calls (`BuddyAllocator.Serve`,
`SharedRuns.Processes`, `Scheduler.Drive`, `HashRuns.Replay`, `HashIterator.Iterate`).

Results that differ from what the code seems to intend, each with its exact condition:

- `PoolSetup.TilesExactly`: the pools tile the range exactly if it has at most 2^31 pages. The page
  count is cut to 32 bits, and `0x1 << 31` is negative, which moves the second pool below the
  first.
- `FreeWalk.ExactIff`, `FreeWalk.NoExcessIff`, `SharedRuns.Overshoot`: the freeing walk can unmap
  pages beyond the region when its first turn meets an absent table, because the product it counts
  falls short of the distance it moves; `FreeWalk.Excess` is by how many pages. Five calls show it:
  the release of the second of three regions unmaps the page of the third, which is still
  allocated.
- `TableTrim.NoTablesIff`, `TableRuns.TopStays`, `SharedRuns.EmptyTables`: the comment at
  virtual_memory/on_demand.c:253 says that only the page-table root needs to stay. A table is
  looked at only when the walk passes the last page it covers, so a release leaves no table if and
  only if no page is left mapped and the walk passed the last page of every table. The first-level
  table is never given back. One page, allocated, touched and released, leaves its three tables.
- `PagingRuns.CoveredIff`, `SharedRuns.LeftBehind`: the address just past a region counts as in it.
  Every mapped page lies in an allocated region throughout a run if and only if no fault was taken
  just past a region and in no other; after such a fault a page outlives its region.
- `PagingRuns.BackedIff`, `SharedRuns.Unbacked`: the fault handler does not look whether it got a
  page. Every mapped page has a frame throughout a run if and only if no fault needed one when all
  were out; otherwise the entry is marked present with frame 0. A range of no pages, one allocation
  and one fault show it.
- `PagePools.SpanExact`, `PagePools.NoPageFound`: `petmem_free_pages` tests an address against a
  pool rightly if and only if the pool has at most 2^30 bytes; `0x1 << pool_order` is negative for
  2^31. A pool of that size is then missed altogether, or, if it begins below 2^31, takes in
  addresses beyond it. A range of 2^19 pages shows the first: no page of it is found again.
- `RegionMap.TakenOk`, `RegionMap.EmptyRequests`: a request whose size is 0, or whose size in bytes
  overflows 64 bits to 0, hands out an address twice; any other keeps the map in order.
- `HashIterator.Iter.constructor`: the entry count has 32 bits; a table of a multiple of 2^32
  entries looks empty to a new iterator.
- `SchedulerRuns.Completion`, `SchedulerRuns.RingHappens`: an idle master finds the blocked list
  empty if and only if no join so far was on a thread that already waited for the joiner. A thread
  that joins itself is enough.
- The comment at sync_tools/locking.c:240-257 says that several dequeuers cannot work, for two
  reasons: a dequeuer may read the value of a node that another has freed, and a freed node that is
  handed out again may let a compare-and-swap succeed that should fail (ABA). The code as modelled,
  where a freed node keeps its contents and is never handed out again, does work for several; both
  reasons lie in what is left out.
- The page-table root is indexed with the entry size counted twice (virtual_memory/on_demand.c:323
  and 414). The model does the same; every address of the region has first index 0, where it makes
  no difference.

`dafny verify dfyconfig.toml` checks the whole project.

## Model

| member | source | states |
|---|---|---|
| BuddyBlocks.FlipBitXor | virtual_memory/buddy.c:59-75 | the arithmetic on offsets is the exclusive or with 1 << order: that bit is inverted and every other kept |
| BuddyBlocks.BuddyFacts | virtual_memory/buddy.c:59-75 | the block found by the exclusive or is in the pool, disjoint from its buddy and the other half of the same parent, and being buddies is mutual |
| BuddyBlocks.WhollyFree | virtual_memory/buddy.c:173-199 | a legal block that touches no outstanding block lies inside a single free block of at least its order |
| BuddyBlocks.CanonicalForm | virtual_memory/buddy.c:163-251 | a block is free if and only if it is a maximal aligned block avoiding every outstanding block |
| BuddyBlocks.HistoryIndependent | virtual_memory/buddy.c:163-251 | two pools with the same outstanding blocks have the same free blocks, whatever their pasts |
| BuddyBlocks.AllReturned | virtual_memory/buddy.c:206-251 | with nothing outstanding the whole pool is one free block |
| BuddyBlocks.SplitLive | virtual_memory/buddy.c:187-194 | halving a taken block and freeing its right half keeps the pool tiled with no two free buddies |
| BuddyBlocks.MergeLive | virtual_memory/buddy.c:239-244 | absorbing a free buddy keeps the pool tiled with no two free buddies |
| BuddyBlocks.ReleaseLive | virtual_memory/buddy.c:247-250 | a returned block whose buddy is not free can become free |
| BuddyBlocks.BuddyIsHead | virtual_memory/buddy.c:229-237 | the address whose tag is tested is always the head of a current block of at most the same order, so no stale tag is read |
| BuddyAllocator.HeadsDiffer | virtual_memory/buddy.c:16-23 | two current blocks never share a tag bit |
| BuddyAllocator.BuddyTest | virtual_memory/buddy.c:231-237 | tag set and stored order equal if and only if the buddy is free as a whole; the tag index is in range |
| BuddyAllocator.EffectiveMin | virtual_memory/buddy.c:106-108 | the smallest order is raised so that a block can hold a header, and only then |
| BuddyAllocator.InitialTiling | virtual_memory/buddy.c:123-136 | a new pool is one outstanding block of the whole size |
| BuddyAllocator.BuddyMempool.constructor | virtual_memory/buddy.c:114-138 | lists empty and tags clear: nothing free, everything outstanding |
| BuddyAllocator.BuddyMempool.Init | virtual_memory/buddy.c:96-139 | NULL if and only if the smallest block would exceed the pool, else a pool with everything outstanding |
| BuddyAllocator.BuddyMempool.BlockToId | virtual_memory/buddy.c:16-23 | the index of any block of the pool passes the BUG_ON |
| BuddyAllocator.BuddyMempool.FindBuddy | virtual_memory/buddy.c:59-75 | relative to the base, the address returned differs from the given one in bit `order` and in no other |
| BuddyAllocator.BuddyMempool.FindBuddyTwice | virtual_memory/buddy.c:59-75 | the buddy of the buddy is the block itself |
| BuddyAllocator.BuddyMempool.Rounded | virtual_memory/buddy.c:172-174 | an order below the smallest is raised to the smallest, and to no more |
| BuddyAllocator.BuddyMempool.Alloc | virtual_memory/buddy.c:162-200 | NULL if and only if no aligned block of the rounded order is clear of the outstanding ones, with the lists as before; else the first block of the first sufficient list, cut down, in the pool, aligned and clear of every other; the halves cut off are each alone on the list of their order, and every other list is as before |
| BuddyAllocator.BuddyMempool.TakeFirst | virtual_memory/buddy.c:183-185 | the head of a list becomes outstanding and nothing else changes hands |
| BuddyAllocator.BuddyMempool.Trim | virtual_memory/buddy.c:187-194 | the left part of the wanted order stays out, each right half goes to the front of its list, and the invariant holds |
| BuddyAllocator.BuddyMempool.SplitOff | virtual_memory/buddy.c:189-193 | one halving keeps the invariant |
| BuddyAllocator.BuddyMempool.Release | virtual_memory/buddy.c:206-251 | an outstanding block, and only that, is outstanding no more; it goes, with what it merges with, to the front of its list, by itself if its buddy was not free, and the lists keep their order; no BUG_ON fires and the invariant holds |
| BuddyAllocator.BuddyMempool.Coalesce | virtual_memory/buddy.c:228-245 | merging stops at a block whose buddy is not free as a whole; one block leaves each list passed, and no other list changes |
| BuddyAllocator.BuddyMempool.Merge | virtual_memory/buddy.c:239-244 | one merge gives the parent block although the right half's tag stays set |
| BuddyAllocator.BuddyMempool.Publish | virtual_memory/buddy.c:247-250 | header, tag and the entry at the front of its list make exactly this block free |
| BuddyAllocator.BuddyMempool.AllocThenRelease | virtual_memory/buddy.c:162-251 | an allocation that is returned leaves the free set as it was |
| BuddyAllocator.BuddyMempool.ReleaseThenAlloc | virtual_memory/buddy.c:162-251 | a block that is returned and merges with nothing is what the next request for its order gets, and the lists are as before |
| BuddyAllocator.BuddyMempool.ClientWrite | virtual_memory/buddy.h:31-39 | whatever a client writes inside a block it holds, the invariant survives |
| BuddyAllocator.ListsDetermined | virtual_memory/buddy.c:163-251 | the outstanding blocks determine the contents of every free list |
| BuddyAllocator.EmptyPoolLists | virtual_memory/buddy.c:206-251 | with everything returned the top list holds the whole pool and the others are empty |
| BuddyAllocator.Serve | virtual_memory/buddy.c:163-251 | through any sequence of requests and returns, each request is granted a block of its order clear of all that are held if and only if there is one, a return gives up that block only, and the free set is the canonical one for what is still held |
| PoolSetup.FlsRemainder | virtual_memory/main.c:108-110 | taking away the highest bit lowers the order, so the loop ends |
| PoolSetup.ExtentsSize | virtual_memory/main.c:108-132 | the pools add up to the page count |
| PoolSetup.ExtentsOrders | virtual_memory/main.c:108-132 | the pools have strictly decreasing orders of at least a page |
| PoolSetup.SmallTiles | virtual_memory/main.c:108-132 | below 2^31 pages the pools follow one another and fill the range |
| PoolSetup.LargeExtents | virtual_memory/main.c:130-131 | from 2^31 pages on they do so only for exactly 2^31 |
| PoolSetup.TilesExactly | virtual_memory/main.c:104-132 | for a range below 2^64 the pools tile it if and only if it has at most 2^31 pages |
| PoolSetup.TilesCover | virtual_memory/main.c:108-132 | pools that tile a range miss no address of it |
| PoolSetup.AddMemory | virtual_memory/main.c:92-135 | the pool list holds one new ready pool per extent, the last created first, and no two share memory of their own |
| PoolSetup.AddPool | virtual_memory/main.c:111-131 | one turn makes the first extent's pool and leaves the others to be made |
| PoolSetup.NewPool | virtual_memory/main.c:118-126 | a pool set up and freed as a whole has its one block on the top list |
| PagePools.PageInPool | virtual_memory/main.c:42-51 | the pages of a pool are its legal blocks of the smallest order |
| PagePools.NoneLeft | virtual_memory/main.c:45-51 | a pool that answers NULL has every one of its pages out |
| PagePools.SpanExact | virtual_memory/main.c:73-74 | for a pool of at most 2^31 bytes, at any base, the test of petmem_free_pages is right for every address if and only if the pool has at most 2^30 bytes, and accepts the whole pool if and only if it has, or begins below 2^31 |
| PagePools.NoPageFound | virtual_memory/main.c:73-132 | ADD_MEMORY of 2^19 pages at or above 2^31 makes one pool of 2^31 bytes, and the test accepts no address at all |
| PagePools.PageMemory.AllocPage | virtual_memory/main.c:38-60 | a page of the first pool that has one left, or 0 if and only if all are out; exactly that page is out more |
| PagePools.PageMemory.FindPool | virtual_memory/main.c:72-74 | the pool the page lies in, or none if and only if it lies in none |
| PagePools.PageMemory.FreePage | virtual_memory/main.c:63-82 | exactly the given page is out no more; an address outside the pools is ignored |
| PagePools.Setup | virtual_memory/main.c:92-135 | the pools of a range below 2^31 bytes hold exactly its pages, each in one pool, none out |
| LockFreeQueue.EffectShape | sync_tools/locking.c:374-390 | every step keeps the chain a list of distinct nodes, head on it, tail its last node or the one before, freed nodes behind head and freed once |
| LockFreeQueue.LinkShape | sync_tools/locking.c:377-381 | a successful link appends to the chain and happens only when tail is on the last node |
| LockFreeQueue.SeenLink | sync_tools/locking.c:381 | the re-read of the link tells exactly whether the compare-and-swap succeeded |
| LockFreeQueue.SeenEmpty | sync_tools/locking.c:403-405 | a null link behind a node that was head means the queue is empty at that moment |
| LockFreeQueue.EventStep | sync_tools/locking.c:374-412 | linking, unlinking and seeing the queue empty are steps a sequential queue with these contents could take |
| LockFreeQueue.ReportsStep | sync_tools/locking.c:374-416 | a call returns exactly the event it took effect with |
| LockFreeQueue.InvInit | sync_tools/locking.c:325-342 | the queue starts with one element of unspecified value |
| LockFreeQueue.InvStep | sync_tools/locking.c:363-417 | any step of any thread keeps the invariant |
| LockFreeQueue.LegalHistory | sync_tools/locking.c:363-417 | on every run the events in order of effect are a legal sequential history ending in the present contents, and each thread's returns are its own events in order |
| LockFreeCalls.Linearizable | sync_tools/locking.c:363-417 | on every run, besides, the k-th event of a thread answers its k-th call: it puts in the value that call was given, or takes one out or finds the queue empty if that was a dequeue; only the last call may have no event or not have returned |
| LockFreeCalls.TurnsOf | sync_tools/locking.c:363-417 | every run is one of turns and calls, so that this holds of it |
| LockFreeQueue.Conservation | sync_tools/locking.c:363-417 | on every run: initial element and linked values in link order = unlinked values in unlink order, then the values after head |
| LockFreeQueue.RunGrows | sync_tools/locking.c:374-390 | along a run the chain only grows, head and tail only move forward, no link or value changes |
| LockFreeQueue.RealTimeOrder | sync_tools/locking.c:363-417 | what had been returned took effect before, and what an idle thread returns later took effect after |
| LockFreeQueue.NoWildReads | sync_tools/locking.c:374-412 | no step reads through NULL or through an address that was never allocated |
| LockFreeQueue.Deinit | sync_tools/locking.c:344-357 | teardown frees the nodes behind head in order, then head |
| LockFreeQueue.AllFreedOnce | sync_tools/locking.c:344-417 | once all calls have returned, dequeues and teardown together free every node exactly once |
| LockFreeProgress.FailureMeansProgress | sync_tools/locking.c:374-390 | on every run, when an attempt fails, tail or head has moved on while it was under way |
| LockFreeProgress.Counters | sync_tools/locking.c:363-417 | on every run head has passed one node per dequeue and the chain has grown by one node per enqueue |
| LockFreeProgress.DequeueRetry | sync_tools/locking.c:402-413 | a dequeue retries only if a dequeue of another thread took effect since it read head |
| LockFreeProgress.EnqueueRetry | sync_tools/locking.c:374-389 | an enqueue fails twice in a row only if an enqueue of another thread took effect since its first attempt began |
| LockFreedom.StepLowers | sync_tools/locking.c:363-417 | every step of any thread that does not return from a call lowers a potential of the whole state |
| LockFreedom.LockFree | sync_tools/locking.c:363-417 | on every run of n threads, some call returns in any stretch of more than 7n^2 + 30n + 8 steps, whatever the schedule |
| Barrier.InvStep | sync_tools/locking.c:169-182 | any step of any thread keeps the invariant: one leader exactly when all have arrived, the count exact |
| Barrier.NoEarlyLeave | sync_tools/locking.c:169-182 | on every run no thread has left a round before every thread arrived in it |
| Barrier.InStep | sync_tools/locking.c:169-182 | on every run the threads' rounds differ by at most one |
| Barrier.NoMissedWindow | sync_tools/locking.c:181 | a waiter may leave exactly when its round has closed, and no later round closes before it does; iterations wraps at 32 bits |
| Barrier.Progress | sync_tools/locking.c:169-182 | until all waits are made some thread has a step that is not an idle turn of the loop |
| Barrier.Bounded | sync_tools/locking.c:169-182 | on every run of n threads that make w waits each, the steps other than idle turns are at most (4n + 2)w, and are so many if and only if all waits are made |
| BarrierClient.WorkInv | sync_tools/driver.c:59-65 | reads see the product and adds count once per thread and iteration |
| BarrierClient.CloseInv | sync_tools/driver.c:56-68 | closing a round means that everyone has read, or everyone has added |
| BarrierClient.ReadsSeeProduct | sync_tools/driver.c:49-71 | on every run, for any number of threads and iterations, each read of iteration i sees num_threads * i |
| BarrierClient.Progress | sync_tools/driver.c:49-71 | on every run, until all waits are made, some thread can read, add or take a step that is not an idle turn of the spin loop |
| RwLock.OneHolder | sync_tools/locking.c:113-127 | at most one thread holds the spinlock |
| RwLock.InvStep | sync_tools/locking.c:189-231 | any step keeps the words exact counts and a writer alone, although the writer's test is two loads |
| RwLock.WriterAlone | sync_tools/locking.c:189-231 | on every run a thread in the write section is there with no other writer and no reader |
| RwLock.WordsAreCounts | sync_tools/locking.c:189-231 | on every run num_readers, writer and free are the numbers of threads in each section and of holders |
| RwLock.Progress | sync_tools/locking.c:189-231 | while some thread is in the lock, some thread in it has a step that is not a fruitless turn of a wait loop |
| RwLock.Bounded | sync_tools/locking.c:189-231 | on every run the steps other than fruitless turns are at most 6 for each read asked for and 7 for each write, and when nobody is left in the lock at least 6 for each |
| RwLock.TurnsOf | sync_tools/locking.c:189-231 | every run is one of turns, so that the bounds hold of it |
| LockClients.NoLostUpdate | sync_tools/driver.c:73-91 | on every run the counter is the number of increments stored, each a separate load and store |
| LockClients.SpinExcludes | sync_tools/locking.c:113-127 | on every run at most one thread is between lock and unlock |
| LockClients.SpinProgress | sync_tools/driver.c:73-91 | on every run some thread has a step that is not an idle turn of the spin loop |
| LockClients.NoWriteUnderWay | sync_tools/driver.c:111-123 | a reader in its section finds no write half done |
| LockClients.NeverBackwards | sync_tools/driver.c:94-165 | on every run a reader in its section finds the number of the last iteration finished, at least what it took before, although each write section first resets the counter; no comparison fails |
| LockClients.SharedProgress | sync_tools/driver.c:94-165 | on every run an idle thread can go on, and while some thread is in the lock some thread in it can do something that is not a fruitless turn of a wait loop |
| LockClients.Sections | sync_tools/driver.c:140-165 | on every run the writer has taken the lock once for each iteration finished, and once more if it is in one, with three accesses in each |
| LockClients.TurnsOf | sync_tools/driver.c:94-165 | every run is one of turns, so that this holds of it |
| SchedulerModel.InvokeCore | user_threads/pet_thread.c:295-335 | a switch and the cleanup after it keep the invariant; a stopped thread's record, and no other, is freed |
| SchedulerModel.ScheduleCore | user_threads/pet_thread.c:428-449 | scheduling keeps the invariant and who is blocked |
| SchedulerModel.BlockCore | user_threads/pet_thread.c:261-266 | a join blocks the caller on exactly one waiter list |
| SchedulerModel.BlockGrounded | user_threads/pet_thread.c:251-267 | a join leaves a ring of waiting threads if and only if there was one or its target already waits for the joiner |
| SchedulerModel.WakeAllCore | user_threads/pet_thread.c:184-197 | the exit loop wakes exactly the exiting thread's waiters, hands each the value and empties the list |
| SchedulerModel.ExitCore | user_threads/pet_thread.c:178-210 | an exit frees the thread's record once and leaves its value with its waiters |
| SchedulerModel.CreateCore | user_threads/pet_thread.c:338-381 | a new thread has an id never used, is ready behind all others, has no waiters, and the invariant holds |
| SchedulerModel.CleanupCore | user_threads/pet_thread.c:383-397 | freeing the record of a stopped thread that nobody waits for restores the invariant and wakes nobody |
| SchedulerModel.FindsLive | user_threads/pet_thread.c:86-111 | among threads that have not exited the lookup finds exactly the live ones |
| SchedulerModel.FindsPrevious | user_threads/pet_thread.c:383-397 | cleanup's lookup finds the thread just left |
| SchedulerModel.NextCore | user_threads/pet_thread.c:178-449 | every allowed call keeps the invariant and changes results, freed records and joins only as that call should |
| SchedulerRuns.Partition | user_threads/pet_thread.c:295-335 | on every run each live thread but the master is exactly one of running, ready and blocked, once, as its state field says |
| SchedulerRuns.OneWaiterList | user_threads/pet_thread.c:251-267 | on every run each blocked thread is on one live thread's waiter list, once, and on no other |
| SchedulerRuns.FreedIffExited | user_threads/pet_thread.c:383-397 | on every run a record is freed if and only if its thread has exited, once, and never while it runs |
| SchedulerRuns.AssertsHold | user_threads/pet_thread.c:178-449 | on every run no assertion of the code fails |
| SchedulerRuns.JoinDelivery | user_threads/pet_thread.c:251-272 | on every run a joiner that resumes returns the value its target passed at exit, whatever happened in between |
| SchedulerRuns.RingIffClosed | user_threads/pet_thread.c:251-267 | a ring of waiting threads exists if and only if some earlier join closed one |
| SchedulerRuns.Completion | user_threads/pet_thread.c:428-464 | with the master running and nobody ready, all threads have exited if and only if no join closed a ring |
| SchedulerRuns.RingHappens | user_threads/pet_thread.c:251-267 | a run in which the first thread joins itself and the master finds nobody ready and a thread blocked |
| SchedulerRuns.RunDispatches | user_threads/pet_thread.c:178-449 | on every run: a yield to a ready thread runs that thread; any other yield, a call of the scheduler, a join and an exit run the first ready thread, or the master if nobody is ready; the order of the others is kept, and the caller, or those it wakes in the order they came to wait, queue up last |
| SchedulerRuns.CallOrder | user_threads/pet_thread.c:428-449 | a call moves every ready thread up one place, or leaves the places alone; the woken and the new queue up behind |
| SchedulerRuns.TurnComes | user_threads/pet_thread.c:428-449 | on every run without directed yields, the thread at place p of the ready list runs no later than switch number p + 1 |
| Scheduler.Library.constructor | user_threads/pet_thread.c:127-140 | the initial state, in which the invariant holds |
| Scheduler.Library.Find | user_threads/pet_thread.c:86-111 | the search of the lists is the lookup of the model |
| Scheduler.Library.Invoke | user_threads/pet_thread.c:295-335 | takes the model's switch, given what the code asserts on entry |
| Scheduler.Library.Schedule | user_threads/pet_thread.c:428-449 | the first ready thread runs, or the master if nobody is ready, and the caller queues up last if it can still run; every switch passes the assertions |
| Scheduler.Library.Create | user_threads/pet_thread.c:338-381 | the id returned is new, its thread is last on the ready list with no waiters, and the invariant holds |
| Scheduler.Library.YieldTo | user_threads/pet_thread.c:403-424 | the thread named runs next if it is ready, else the one the scheduler picks; the others keep their order with the caller last, and the invariant, results, freed records and who is blocked are kept |
| Scheduler.Library.Join | user_threads/pet_thread.c:251-267 | blocks exactly the caller, last on its target's waiter list, and the first ready thread runs, or the master; -1 and no change if and only if there is no such thread; the invariant holds |
| Scheduler.Library.Resumed | user_threads/pet_thread.c:269-271 | returns the value that the thread joined left when it exited, and that thread's record has been freed |
| Scheduler.Library.Exit | user_threads/pet_thread.c:178-210 | the caller's waiters, and no others, wake and queue up in order, and the first of the ready runs, or the master; the code's assertions hold on the way, and so does the invariant |
| Scheduler.Library.WakeWaiters | user_threads/pet_thread.c:184-197 | the loop wakes all waiters in order and leaves none |
| Scheduler.Library.Perform | user_threads/pet_thread.c:178-449 | any allowed call takes the model's step, runs next whom it should, and keeps the invariant |
| Scheduler.Drive | user_threads/pet_thread.c:127-449 | through the calls of any run the library's fields are the run's states, so each live thread is in one place and an idle library has nobody blocked if and only if no join closed a ring |
| RegionMap.FirstFitLowest | virtual_memory/on_demand.c:86-105 | first fit finds the lowest address where the request fits, and none only if none does |
| RegionMap.TakenOk | virtual_memory/on_demand.c:91-101 | a split keeps the map in order if and only if the request is not empty |
| RegionMap.TakenRegions | virtual_memory/on_demand.c:91-101 | an allocation adds its region and changes no other |
| RegionMap.ReleasedOk | virtual_memory/on_demand.c:291-317 | a release with its merges keeps the map tiled with no two free neighbours |
| RegionMap.ReleasedRegions | virtual_memory/on_demand.c:291-317 | a release gives up its region and no other |
| RegionMap.TakeThenRelease | virtual_memory/on_demand.c:82-105 | releasing what was just allocated restores the map node for node |
| RegionMap.AllReleased | virtual_memory/on_demand.c:291-317 | with nothing allocated there is the single initial free node |
| RegionMap.EmptyRequests | virtual_memory/on_demand.c:82-105 | a request of no pages makes the next allocation share its address |
| RegionMap.RequestSize | virtual_memory/on_demand.c:82 | the size in bytes is exact below 2^52 pages and 0 at its multiples |
| RegionMap.MemMap.constructor | virtual_memory/on_demand.c:13-32 | one free node covers the region |
| RegionMap.MemMap.Contains | virtual_memory/on_demand.c:60-72 | an address is accepted if and only if it is in an allocated node or just past it |
| RegionMap.MemMap.FindFit | virtual_memory/on_demand.c:86-91 | stops at the first free node that is large enough |
| RegionMap.MemMap.Alloc | virtual_memory/on_demand.c:75-106 | returns the lowest fitting address or -1 if there is none, and adds exactly that region |
| RegionMap.MemMap.Release | virtual_memory/on_demand.c:286-317 | the region that starts at the address goes, its page count comes back, and no other region changes; without one nothing changes |
| RegionMap.MemMap.Merge | virtual_memory/on_demand.c:292-316 | the node becomes free and one with its free neighbours |
| PageTables.PathOfPage | virtual_memory/pgtables.h:34-37 | two 48-bit addresses have the same four indices if and only if they are in the same page |
| PageTables.IndexDigits | virtual_memory/pgtables.h:34-37 | the four indices are the base-512 digits of the page number |
| PageTables.Elsewhere | virtual_memory/on_demand.c:414-452 | in an unshared tree, writing one entry changes only what lies under it |
| PageTables.InstallTable | virtual_memory/on_demand.c:416-442 | a new zeroed table under an absent entry keeps the tree unshared and no page translates differently |
| PageTables.InstallPage | virtual_memory/on_demand.c:446-452 | a user page under an absent entry changes one translation and keeps the tree unshared |
| PageTables.ClearPage | virtual_memory/on_demand.c:355-360 | clearing a page's entry changes one translation |
| PageTables.ReleaseTable | virtual_memory/on_demand.c:193-197 | releasing an empty table changes no translation and keeps the tree |
| FreeWalk.LinInjective | virtual_memory/on_demand.c:170-251 | the four indices count like a number in base 512 |
| FreeWalk.StartAtPage | virtual_memory/on_demand.c:259-262 | for an address of the region the cursor starts at the processor's own path |
| FreeWalk.Product3 | virtual_memory/on_demand.c:326 | the product counted for an absent first-level entry is at most the distance moved, and equal exactly in the stated cases |
| FreeWalk.Product2 | virtual_memory/on_demand.c:337 | the same for an absent second-level entry |
| FreeWalk.CountWithin | virtual_memory/on_demand.c:321-365 | no turn counts more pages than the cursor moves, and only a turn that starts inside an absent table counts fewer |
| FreeWalk.ExcessIsLead | virtual_memory/on_demand.c:325-342 | in closed form, for every cursor and page count, how many pages the walk passes beyond those it counts: (511 - i2) i1 behind a present first-level entry, and (511 - i3)(512^2 - (512 - i2)(512 - i1)) more behind an absent one, if the pages asked for are more than the product |
| FreeWalk.NoExcessIff | virtual_memory/on_demand.c:325-342 | exactly when the walk goes no further than the pages asked for |
| FreeWalk.ExactIff | virtual_memory/on_demand.c:321-365 | no page outside those asked for is unmapped if and only if none is mapped in the excess |
| TableTrim.TrimmedOn | virtual_memory/on_demand.c:182-251 | walking on, the tables passed so far stay as they are: those gone are exactly the ones passed and empty |
| TableTrim.ReachThere | virtual_memory/on_demand.c:321-365 | the walk ends just after its last page, or at the end of what is absent there |
| TableTrim.NoTablesIff | virtual_memory/on_demand.c:254-365 | a release leaves no table if and only if no page is left mapped and the walk passed the last page of every table there was |
| TableTrim.FirstLevelStays | virtual_memory/on_demand.c:182-201 | a walk that ends before the last second-level entry leaves the first-level table |
| OnDemand.MappedAfter | virtual_memory/on_demand.c:355-360 | a change at one entry changes the set of mapped frames by that entry's frame |
| OnDemand.NewTable | virtual_memory/on_demand.c:416-442 | a zeroed page under an absent entry: the tree stays unshared and every frame accounted for |
| OnDemand.NewPage | virtual_memory/on_demand.c:446-452 | the same for a user page, also when the allocation failed |
| OnDemand.TableGone | virtual_memory/on_demand.c:193-197 | the same for an empty table given back |
| OnDemand.BalancedClear | virtual_memory/on_demand.c:355-360 | a page unmapped was out of the pools, and without it every frame is accounted for |
| OnDemand.FaultDeepens | virtual_memory/on_demand.c:414-452 | after a fault the entries on the way to the address are there, and every other entry is as before |
| OnDemand.FaultDone | virtual_memory/on_demand.c:414-452 | up to three new tables and a page along one path: the translation changes at that page only |
| OnDemand.FirstIndex | virtual_memory/on_demand.c:414 | every accepted address has first index 0, where the double scaling makes no difference |
| OnDemand.Kernel.GetPage | virtual_memory/on_demand.c:417-436 | a page that is not in use and not of the pools, which then is in use |
| OnDemand.AddressSpace.constructor | virtual_memory/on_demand.c:386-414 | a process whose root maps nothing: no page or table of its own but the root, and every frame accounted for |
| OnDemand.AddressSpace.Fault | virtual_memory/on_demand.c:377-456 | -1 and no change if the address is not accepted; else the page of the address is mapped if it was absent and every other page translates as before; its frame comes from the pools, and is 0 if and only if all are out; what other processes have of the pools and the kernel is as before |
| OnDemand.AddressSpace.Descend | virtual_memory/on_demand.c:416-424 | one level down, making the table if it is absent |
| OnDemand.AddressSpace.MapPage | virtual_memory/on_demand.c:444-452 | the page's entry, if absent, leads to a frame taken from the pools |
| OnDemand.AddressSpace.UnmapPage | virtual_memory/on_demand.c:355-360 | the page's entry, if present, goes and its frame is back in the pools |
| OnDemand.AddressSpace.TableEmpty | virtual_memory/on_demand.c:126-168 | true if and only if none of the 512 entries is present |
| OnDemand.AddressSpace.ReleaseIfEmpty | virtual_memory/on_demand.c:190-198 | the table goes if and only if it is empty, every other table stays, and no page translates differently |
| OnDemand.AddressSpace.IncrementPdpe | virtual_memory/on_demand.c:182-201 | the cursor moves by one second-level entry, carrying; the table it leaves goes if and only if it is empty, and no page translates differently |
| OnDemand.AddressSpace.IncrementPde | virtual_memory/on_demand.c:203-223 | the cursor moves by one third-level entry, carrying, with the same for the tables it leaves |
| OnDemand.AddressSpace.IncrementPte | virtual_memory/on_demand.c:225-251 | the cursor moves by one page, carrying, with the same for the tables it leaves |
| OnDemand.AddressSpace.Turn | virtual_memory/on_demand.c:321-365 | a turn passes over unmapped pages, or unmaps the page it stands at and gives back its frame; the tables whose last page it passes go if and only if they are empty |
| OnDemand.AddressSpace.FreePages | virtual_memory/on_demand.c:321-365 | every mapping of the pages asked for, and of the excess in closed form, goes and no other; their frames, and no others, are back in the pools; the tables gone are exactly those passed and empty |
| OnDemand.AddressSpace.FreeRegion | virtual_memory/on_demand.c:255-368 | an address in the first page of a region gives up the region and its pages, with the excess and the tables that go exactly as for the walk; any other changes nothing; what other processes have is as before |
| PagingRuns.CoveredIff | virtual_memory/on_demand.c:60-72 | on every run, all mapped pages lie in allocated regions throughout if and only if no fault was taken just past a region and in no other |
| PagingRuns.AllBack | virtual_memory/on_demand.c:255-368 | on every run without such a fault, once every region is released every user page is back in the pools |
| PagingRuns.Isolated | virtual_memory/on_demand.c:414-452 | in an unshared tree, which the tables of every state of a run are, no frame is mapped at two pages |
| PagingRuns.BackedIff | virtual_memory/on_demand.c:446-452 | on every run, every mapped page has a frame throughout if and only if no fault needed one when all were out |
| PagingRuns.NextAfter | virtual_memory/on_demand.c:86-105 | with the map filled up to an address, the next region starts there |
| PagingRuns.Overshoots | virtual_memory/on_demand.c:336-342 | on every run of three allocations, a fault in the third region and the release of the second, the third stays allocated and its page is unmapped |
| PagingRuns.PastTheEnd | virtual_memory/on_demand.c:60-72 | on every run of an allocation, a fault just past it and its release, no region is left and a page is mapped |
| PagingRuns.NoMemory | virtual_memory/on_demand.c:446-452 | on every run of an allocation and a fault in it when all pages are out, the page is mapped to frame 0 |
| TableRuns.TopStays | virtual_memory/on_demand.c:254-365 | on every run the first-level table, once made, is never given back |
| TableRuns.TablesLeft | virtual_memory/on_demand.c:254-365 | on every run of an allocation of one page, a fault in it and its release, no region and no page is left, and the page's table is |
| SharedRuns.EachRuns | virtual_memory/main.c:138-241 | on every run of several processes, each of them sees a run of its own, so that what is proved of runs holds of each |
| SharedRuns.Separate | virtual_memory/on_demand.c:414-452 | on every run of several processes no frame is mapped at two pages, of one process or of two, and no mapped frame is a table of any |
| SharedRuns.Undisturbed | virtual_memory/main.c:138-210 | a request of one process changes nothing of another's map, tables and pages |
| SharedRuns.PoolsWhole | virtual_memory/on_demand.c:255-368 | on every run of several processes, once all regions of all are released and no fault strayed, all user pages are back in the pools |
| SharedRuns.ApartStep | virtual_memory/main.c:38-82 | when one process moves and takes nothing of another's, each page that is out is with one process and what each takes to be out to the others is |
| SharedRuns.Bystander | virtual_memory/main.c:38-82 | a process that asks for nothing keeps its tables and pages accounted for while another moves |
| SharedRuns.Perform | virtual_memory/main.c:138-210 | each request takes a step of the specification, keeps tables, pools and map in order, and touches nothing of other processes |
| SharedRuns.Serve | virtual_memory/main.c:138-210 | a request of one of several processes is a step of that process, and to the others only a change of what the pools have left |
| SharedRuns.OpenAll | virtual_memory/main.c:232-238 | each process that opens the device has its own root, an empty map and nothing out |
| SharedRuns.Processes | virtual_memory/main.c:92-238 | from ADD_MEMORY and the opening of the device by any number of processes on, any sequence of their requests and faults is a run in which each one's tables stay an unshared tree and every frame is with one process |
| SharedRuns.Process | virtual_memory/main.c:92-238 | the same for one process; at every moment no frame is mapped at two pages |
| SharedRuns.Overshoot | virtual_memory/on_demand.c:336-342 | from ADD_MEMORY on, the calls of `PagingRuns.Overshoots` leave the third region allocated and its page unmapped |
| SharedRuns.LeftBehind | virtual_memory/on_demand.c:60-72 | from ADD_MEMORY on, the calls of `PagingRuns.PastTheEnd` leave no region and a page mapped |
| SharedRuns.Unbacked | virtual_memory/on_demand.c:446-452 | from ADD_MEMORY of no pages on, an allocation and a fault in it leave a page mapped to frame 0 |
| SharedRuns.EmptyTables | virtual_memory/on_demand.c:254-365 | from ADD_MEMORY on, the calls of `TableRuns.TablesLeft` leave no region and no page of the pools out, and the page's table |
| HashChains.ShapePush | user_threads/pet_hashtable.c:329-330 | a new entry at the head of its chain keeps every entry on the one chain its hash names |
| HashChains.ShapePop | user_threads/pet_hashtable.c:239-243 | taking the first entry off a chain keeps the rest |
| HashChains.ShapeDrop | user_threads/pet_hashtable.c:481-489 | leading a link past an entry and freeing it keeps the rest, at the head and mid-chain |
| HashChains.AddedGet | user_threads/pet_hashtable.c:299-333 | an entry with a new key adds that key to the map and nothing else |
| HashChains.SetGet | user_threads/pet_hashtable.c:352-361 | a new value in an entry changes the map at its key and nowhere else |
| HashChains.LostGet | user_threads/pet_hashtable.c:478-491 | an entry gone takes its key from the map and nothing else |
| HashChains.SameGet | user_threads/pet_hashtable.c:237-245 | links do not matter to the map |
| HashChains.ChainsHoldAll | user_threads/pet_hashtable.c:50-60 | the chains together hold every entry exactly once, so their total length is the number of entries |
| HashTable.SizesGrow | user_threads/pet_hashtable.c:144-162 | sizes and load limits grow together, each limit the first whole number at or above .65 of its prime |
| HashTable.StopsAtGet | user_threads/pet_hashtable.c:435-450 | where the walk for a key stops is what the map holds there |
| HashTable.InsertedGet | user_threads/pet_hashtable.c:299-333 | after an insert the table stands for a map if and only if the key was not in it |
| HashTable.MoveOne | user_threads/pet_hashtable.c:239-244 | one move leaves every entry on exactly one of the two tables |
| HashTable.Table.Create | user_threads/pet_hashtable.c:166-209 | NULL if and only if the size is above 2^30; else an empty table of the first prime above the size |
| HashTable.Table.Rehash | user_threads/pet_hashtable.c:237-245 | all entries end on the new table, with their keys, values and hashes |
| HashTable.Table.MoveHead | user_threads/pet_hashtable.c:239-244 | the first entry of an old chain moves to its new one |
| HashTable.Table.Expand | user_threads/pet_hashtable.c:212-291 | growth to the next prime unless at the last, with the same entries |
| HashTable.Table.Reserve | user_threads/pet_hashtable.c:308-314 | the table grows if and only if it is at its load limit and not at the last prime; after counting and growing there is room for one more entry within the load limit, unless at the last prime |
| HashTable.Table.Insert | user_threads/pet_hashtable.c:299-333 | adds exactly the entry, or with no memory nothing; the table stays a map if and only if the key is new, which is then in the map with every other key as it was |
| HashTable.Table.Walk | user_threads/pet_hashtable.c:346-365 | stops at the first entry of the chain with the hash and an equal key, and knows the entry before it |
| HashTable.Table.Search | user_threads/pet_hashtable.c:427-451 | the value the map holds at the key, or 0 |
| HashTable.Table.Change | user_threads/pet_hashtable.c:336-366 | found if and only if the key is in the map, which then holds the value there and is otherwise as before |
| HashTable.Table.Inc | user_threads/pet_hashtable.c:370-395 | found if and only if the key is in the map, which then holds there the old value plus the given one, less 2^64 if that is 2^64 or more, and is otherwise as before |
| HashTable.Table.Dec | user_threads/pet_hashtable.c:398-423 | the same with the old value less the given one, plus 2^64 if that is negative |
| HashTable.IncThenDec | user_threads/pet_hashtable.c:370-423 | an increment and a decrement by the same amount leave the map as it was, whether or not the sum wraps |
| HashTable.Table.Remove | user_threads/pet_hashtable.c:455-499 | returns what the map held at the key, or 0, and takes that key, and only that, from the map |
| HashIterator.Iterate | user_threads/pet_hashtable.c:561-707 | for a table that is empty or whose 32-bit count is not 0, a new iterator taken to its end by any mix of advances and removals stands on every entry exactly once; the entries removed are gone and the others hold what they held |
| HashIterator.Iter.constructor | user_threads/pet_hashtable.c:561-594 | a new iterator has all entries ahead, or none if the 32-bit count is 0 |
| HashIterator.Iter.Follow | user_threads/pet_hashtable.c:633-663 | goes along the link, or to the first entry of the next slot that has one, or to the end |
| HashIterator.Iter.Advance | user_threads/pet_hashtable.c:619-664 | takes one advance of the sweep, or does nothing at the end |
| HashIterator.Iter.Detach | user_threads/pet_hashtable.c:681-703 | unlinks the entry stood on, moves on and corrects the parent |
| HashIterator.Iter.Remove | user_threads/pet_hashtable.c:673-707 | takes one removal of the sweep; the entry, and only that, leaves the table and the map |
| HashIterator.Iter.Find | user_threads/pet_hashtable.c:711-747 | found if and only if the key is in the map, and then standing on its entry with the right parent |
| HashRuns.Replay | user_threads/pet_hashtable.c:166-499 | from creation on, every answer of any sequence of calls that inserts new keys only is the plain map's, and the table ends up standing for that map |

## Left out

- Loss of a freed queue node's contents, reuse of freed nodes, weak memory, compiler reordering and the inline assembly: each locked instruction is one atomic step, and a freed node keeps its contents and is never handed out again.
- Overflow of the lock, reader and queue words at 32 bits: they count threads or hold caller values.
- `hashtable_expand` without memory for the new table (user_threads/pet_hashtable.c:250-284), whose `memset` works on an entry instead of a slot.
- HashTable.Table.Insert: says which entries the table holds, but not which of two equal keys a search finds, because growth reverses the order of entries on a chain.
- Freeing of the caller's keys and values by the hash table, and `pet_free_htable`.
- The bit mixing of `do_hash`, `pet_hash_ptr` and `pet_hash_buffer`: the hash is a parameter.
- `petmem_alloc_pages` and `petmem_free_pages` for more than one page, and pools of 2^31 bytes or more, for which `0x1 << pool_order` (virtual_memory/main.c:74) is negative or not defined.
- PagePools.Setup: a base that is not page aligned or is 0, because frames are numbers of whole pages and 0 stands for a failed allocation.
- SharedRuns.Processes: requests of no pages, which put the map out of order (`RegionMap.TakenOk`), and a second ADD_MEMORY.
- SharedRuns.Process: the same.
- OnDemand.AddressSpace.constructor: the root is the process's own, with whatever else is mapped under its first index 0; in the model it is zeroed, and every table below it is one of the module's.
- `petmem_deinit_process` (virtual_memory/on_demand.c:36-52), which unlinks nodes that a release may have merged away.
- Failure of kmalloc and get_zeroed_page, and permission bits of page-table entries. get_zeroed_page returns any page outside the pools that is not in use.
- Address translation between physical and virtual (`__va`, `__pa`) is the identity; TLB invalidation is left out. `PagePools.PageMemory.FindPool` and `FreePage`, and with them `PagingRuns.AllBack` and `SharedRuns.PoolsWhole`, rest on that: `petmem_free_pages` compares a physical address with a base that `__va` made (virtual_memory/main.c:73 and 104), and where the two differ it finds no pool and gives nothing back.
- Joins and yields that name an exited thread, and joins by or on the master.
- The record of the last thread that exited is read after it was freed by every lookup that names neither the master nor the running thread (user_threads/pet_thread.c:95, also from the cleanup at 390). The model takes a freed record to keep its id.
- Fairness among threads that yield to a thread of their choice.
- Stacks, register save and restore, and the start of a new thread's function.
- Linked lists (`pet_list.h` and the kernel's) are sequences; chain links of the hash table and the queue are modelled as addresses in a map of memory.
- `pthread_barrier_wait`, sleeping and iteration limits in the drivers, and ex1, enqueue and dequeue tests.
- ioctl and device setup, file I/O, swap stubs, logging and memory offlining.
