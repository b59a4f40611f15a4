# Umbongo kernel: a verified model

Umbongo is a small multiprocessor kernel with its own user space. This project models the parts of it
whose correctness spans several functions, and proves what those parts promise.

- **Scheduler.** `TicketQueue` is the lock-free ring as a machine of atomic steps by any number of
  processors, with unbounded tickets whose residues are the 32-bit counters; `RingOrder` and
  `RingOvertaking` say when it hands threads out in order, `RingProgress` when an enqueue can wait for
  nobody. `SchedulerMachine` puts three rings under `switch_next` and `pick_next` on any number of
  processors; `PickOrder` says in which order a processor goes through the queues, `DeadThreads` and
  `TwiceDeleted` how often a dead thread is deleted. `RoundRobin` is one processor in the
  source's own loops, down to how long a runnable thread can wait.
- **Virtual memory.** `SplayTree` is the intrusive tree with its pointers rewritten in place and the
  amortised cost of splaying, `PageTables` the four levels of tables, `PageEntry` the packed words,
  `Frames` the frame bitset and the pages that own frames, `VmObjects` the greedy split, `RegionPages` and
  `AddressSpace` the regions, and `Translation` what an address in a mapped region translates to, from a
  new process and a request for memory to the processor's walk.
- **Kernel heap.** `Heap` is one chunk region with its word-at-a-time scan, `KernelHeap` the list of
  regions over the frame bitset, `PhysicalMemory` the heap, the pages and direct allocations over one
  bitset, and `HeapClients` what the callers of `operator new` hold.
- **Smaller cores.** `TrbRing` (the USB rings against sections 4.9.2 to 4.9.4 of the xHCI
  specification), `Vfs` (paths, mounts, getcwd), `Streams` (pipes and sockets), `Editor`, `Shell`,
  `CombSort`.

`Region` holds the records that several modules share; `Arithmetic`, `Bits` and `Sums` hold facts about
numbers, words and sums. Locks are atomic steps, `ustd::Vector` is a sequence, addresses are numbers,
and where the source stops the machine (a failed `ENSURE`) the model gives back a result of its own, with
the reason for the stop in its contract. `ASSERT` is compiled in only with the build option `assertions`
(build.toml:41); the model is of builds with that option. There an assertion is a precondition that every
caller is shown to meet, a proved fact, or, where it can fail, an outcome with its exact condition
(`AllocContiguous`, `ParseList`).

Where the code does not keep what it is for, the model follows the code, gives a concrete case, and says
exactly when it does keep it:

- the emptiness test of the ring (`EmptyGuardExact`, `EmptyGuardFailsAtHalf`) and its order
  (`WindowIsExact`, `LateTicketOvertaken`);
- the deletion of dead threads (`DeletedOnceIff`, `ThreadDeletedTwice`);
- the minimum pointer of the tree (`Insert`, `StaleMinimum`) and overlapping regions (`NewRegion`,
  `OverlapBreaks`);
- the frame bitset (`BucketsInBounds`, `LastBucketMissing`; `AllocContiguous`, `SearchRunsPastEnd`) and
  `virt_to_phys` (`AnswerIsWalkIff`, `SecondPageMissed`);
- the heap's two routes (`RoutesAgreeIff`, `ThresholdBlockIsLost`; `DirectFreesAllIff`, `OneFrameLost`)
  and aligned allocation (`AlignedFitsIff`, `SmallAlignmentHitsHeader`);
- a full ring at the link block (`Fetch`, `FullLapSticks`);
- what mounts do to paths and to getcwd (`PlainPathLeadsToMount`, `DetourMountLost`;
  `MountKeepsRoundTripsIff`, `DotMountBreaks`; `MountKeepsAllRoundTripsIff`, `RootMountBreaks`);
- files without a final newline (`SaveLoadedIff`, `UnterminatedLineLost`), and texts with a NUL
  (`TokensStopAtNul`, `NulDropsRest`).

For progress of `enqueue` the bound of 1024 threads is shown to suffice (`NoEnqueueWaitsForNobody`), and
1025 on one processor to be too many (`OneThreadTooMany`).

## Model

| member | source | states |
|---|---|---|
| `TicketQueue.EmptyGuardExact` | kernel/proc/scheduler.cc:44-48 | The signed 32-bit test for an empty ring succeeds exactly when the distance between the counters, modulo 2^32, is 0 or at least 2^31; it is the true comparison while fewer than 2^31 tickets separate them. |
| `TicketQueue.EmptyGuardFailsAtHalf` | kernel/proc/scheduler.cc:46 | Concrete failure of the guard: 2^31 queued threads look like none. |
| `TicketQueue.ClaimExact` | kernel/proc/scheduler.cc:49 | The exchange on the wrapped tail counter succeeds exactly when no other processor has claimed a ticket since the tail was read. |
| `TicketQueue.InitInv` | kernel/proc/scheduler.cc:22-31 | A new ring meets the invariant: every slot balanced, every thread accounted for. |
| `TicketQueue.StepKeepsBalance` | kernel/proc/scheduler.cc:33-60 | Every atomic step keeps, for each slot: filled + pending enqueuers - waiting dequeuers = tickets handed out - tickets claimed for that slot. |
| `TicketQueue.StepKeepsThread` | kernel/proc/scheduler.cc:33-60 | Every atomic step keeps, for each thread: times accepted = copies in the ring + times delivered; and only a claim adds a copy, only a take removes one. |
| `TicketQueue.StepKeepsInv` | kernel/proc/scheduler.cc:33-60 | Any step of any number of processors keeps the whole ring invariant while no dequeue is overtaken by 2^31 tickets. |
| `TicketQueue.RunKeepsInv` | kernel/proc/scheduler.cc:33-60 | Every state of every interleaving meets the ring invariant. |
| `TicketQueue.NoneLostNoneDuplicated` | kernel/proc/scheduler.cc:33-60 | In every interleaving each thread has been handed out exactly as often as it was enqueued, less the copies still in the ring. |
| `TicketQueue.ClaimedTicketHasSupplier` | kernel/proc/scheduler.cc:50-59 | Waiting dequeuers of a slot never exceed the filled slot plus its pending enqueuers, so a claimed ticket can be served now or by an enqueuer whose exchange would succeed now. |
| `TicketQueue.NullMeansAllClaimed` | kernel/proc/scheduler.cc:46-48 | `dequeue` gives up exactly when its snapshot equals the head, and then every ticket handed out has been claimed. |
| `TicketQueue.QuiescentRingIsEmpty` | kernel/proc/scheduler.cc:33-60 | When all processors are outside the ring and the counters meet, every slot is empty and delivered equals accepted. |
| `TicketQueue.DequeueNeverDeadlocks` | kernel/proc/scheduler.cc:43-60 | While some processor is inside `dequeue`, a step other than an idle retry is possible. |
| `RingOrder.StepKeepsOrder` | kernel/proc/scheduler.cc:33-60 | Every atomic step of any number of processors keeps the order of the ring, while at most 1024 tickets have been taken since the oldest one that is not served: every full slot holds the thread of such a ticket, and every waiting enqueue has an empty slot before it. |
| `RingOrder.StepKeepsSupply` | kernel/proc/scheduler.cc:33-60 | Every step keeps the thread of each ticket that is not served in its slot or in the enqueue that waits for it. |
| `RingOrder.RunKeepsOrder` | kernel/proc/scheduler.cc:33-60 | Every state of every such interleaving is in order, and every ticket that is not served has its thread in its slot or in a waiting enqueue. |
| `RingOrder.FirstInFirstOut` | kernel/proc/scheduler.cc:33-60 | In every such interleaving the dequeue with ticket n returns the thread that was enqueued with ticket n. |
| `RingOvertaking.OnlyClaimsLeaveWindow` | kernel/proc/scheduler.cc:34 | Only the claim of an enqueue ticket can break that bound, and it does so exactly 1024 after a ticket that is not served. |
| `RingOvertaking.LateIsWrong` | kernel/proc/scheduler.cc:43-60 | If ticket n is stored and not taken when ticket n + 1024 is out, the tickets between them can be served one by one, and then the dequeue with ticket n + 1024 gets the thread of ticket n. |
| `RingOvertaking.LeavingWindowLosesOrder` | kernel/proc/scheduler.cc:33-60 | Whenever a claim breaks the bound, with two more processors outside the ring and another thread, some continuation has a dequeue that returns the thread of another ticket. |
| `RingOvertaking.WindowIsExact` | kernel/proc/scheduler.cc:33-60 | Both halves over every interleaving: within the bound no dequeue gets a wrong thread, and the first step out of it has a continuation in which one does. |
| `RingOvertaking.LateTicketOvertaken` | kernel/proc/scheduler.cc:43-60 | Concrete failure, from the empty ring, with three processors and any two threads: one processor claims ticket 0 and is held up while the others pass the second thread through 1023 times; the next dequeue gets the first thread. |
| `RingProgress.FullSlotHasDequeue` | kernel/proc/scheduler.cc:36-40 | With at most 1024 threads in the ring, an enqueue that finds its slot full has a dequeue that can empty that slot now. |
| `RingProgress.EnqueueNeverDeadlocks` | kernel/proc/scheduler.cc:33-41 | So in every interleaving a waiting enqueue can store, or another processor can make room for it. |
| `RingProgress.InsideAtMost` | kernel/proc/scheduler.cc:22-31 | A ring in which no thread is twice holds at most as many as there are threads. |
| `RingProgress.NoEnqueueWaitsForNobody` | kernel/proc/scheduler.cc:69-153 | In every interleaving of the whole scheduler with at most 1024 live threads, a processor that waits in an enqueue can store, or another can take a thread out of that very slot. |
| `RingProgress.OneThreadTooMany` | kernel/proc/scheduler.cc:33-41 | Concrete failure: on one processor the enqueue of the 1025th thread can do nothing but look at its full slot, for ever. |
| `SchedulerMachine.AccessMovesThread` | kernel/proc/scheduler.cc:136-143 | A ring access changes the number of places that hold a thread by exactly what the processor gains or gives up. |
| `SchedulerMachine.AccessMovesIdle` | kernel/proc/scheduler.cc:136-143 | The same for the idle threads in hand, queued or claimed. |
| `SchedulerMachine.IdleQueueHasOne` | kernel/proc/scheduler.cc:69-82 | While a processor searches the idle queue, the other processors hold or have claimed at most all but one idle thread, so an unclaimed ticket is left. |
| `SchedulerMachine.IdleQueueNeverLooksEmpty` | kernel/proc/scheduler.cc:69-82 | Hence the empty branch of `dequeue` is disabled on the idle queue in every reachable state. |
| `SchedulerMachine.ClaimKeepsInv` | kernel/proc/scheduler.cc:136-141 | Putting the current or an unready thread back keeps every thread in exactly one place. |
| `SchedulerMachine.DispatchKeepsInv` | kernel/proc/scheduler.cc:75-78 | Returning an alive thread from `pick_next` keeps the invariant. |
| `SchedulerMachine.SwitchFromDeadKeepsInv` | kernel/proc/scheduler.cc:139-141 | Switching away from a dead thread drops it from all places and nothing else; the second test of the thread is in `DeadThreads`. |
| `SchedulerMachine.InsertKeepsInv` | kernel/proc/scheduler.cc:124-134 | Inserting a new normal thread from any processor keeps the invariant. |
| `SchedulerMachine.StartCpuKeepsInv` | kernel/arch/amd64/cpu.cc:533-546 | Starting a processor with its own idle thread as current keeps the count: one idle thread per processor. |
| `SchedulerMachine.KernelStepKeepsInv` | kernel/proc/scheduler.cc:69-153 | Every step of every processor keeps: one idle thread per processor, every live thread in exactly one place, every processor inside a ring operation exactly where its place says so. `PickOrder` states in which order the steps go through the queues. |
| `SchedulerMachine.KernelInitInv` | kernel/proc/scheduler.cc:105-116 | The state after boot meets the invariant. |
| `SchedulerMachine.KernelRunKeepsInv` | kernel/proc/scheduler.cc:69-153 | Every state of every interleaving on any number of processors meets the invariant. |
| `SchedulerMachine.NeverQueueEmpty` | kernel/proc/scheduler.cc:82 | No interleaving makes any processor reach "Thread queue empty!". |
| `SchedulerMachine.EveryThreadInOnePlace` | kernel/proc/scheduler.cc:69-153 | In every reachable state a live thread is current on one processor, in one hand or in one ring, exactly once; a dead one nowhere. |
| `SchedulerMachine.NoThreadRunsTwice` | kernel/proc/scheduler.cc:136-153 | Two processors never run the same thread. |
| `PickOrder.SearchLeavesBehind` | kernel/proc/scheduler.cc:69-83 | Where a search of `pick_next` has come to, it has found every queue before that one without an unclaimed ticket, in order, and has not come back to it. |
| `PickOrder.QueuesInOrder` | kernel/proc/scheduler.cc:69-83 | In every interleaving, between leaving one thread and running the next a processor first finds the blocked queue with head equal to tail, before it dequeues elsewhere and without dequeuing there again. It runs an idle thread only after it has then found the normal queue so, without dequeuing there again; before it runs a normal thread it has not touched the idle queue. |
| `PickOrder.LeftThreadIsQueued` | kernel/proc/scheduler.cc:138-141 | The thread that a processor leaves claims a ticket of the queue of its priority in that very step, unless it is dead; then it is no longer one of the threads. |
| `PickOrder.TakenGoesOn` | kernel/proc/scheduler.cc:70-80 | Every thread that a search takes out of a queue is in the hands of the processor, or has gone on: from the blocked queue to the normal one, from another queue to the blocked one, and then only if it was not alive. |
| `PickOrder.ReturnedWasTaken` | kernel/proc/scheduler.cc:73-80 | The thread that a search returns is alive and was taken, in this search, out of the queue of its priority; every other thread that it took has gone on. |
| `PickOrder.StateChangesWhileCurrent` | kernel/proc/thread.cc:208-217 | In every interleaving a new thread starts alive, and only a thread that some processor runs has its state changed: none changes while it waits in a queue. |
| `PickOrder.SwitchNeverStuck` | kernel/proc/scheduler.cc:69-83 | In every reachable state every processor has a step of `switch_next` to make, and a living thread out of the normal or idle queue can be run. |
| `DeadThreads.DeedKeepsTidy` | kernel/proc/scheduler.cc:136-149 | With the second test at the end of the switch as a step of its own: every step keeps, for each thread that died, deletions done and to come equal to one plus the processors that were late at its death. |
| `DeadThreads.DeletedOnceIff` | kernel/proc/scheduler.cc:136-149 | In every interleaving no living thread is deleted, and a dead one is deleted exactly once if and only if, when it died, no other processor stood between requeuing it and its second test; each that did deletes it once more. |
| `DeadThreads.LateIsKnownAtDeath` | kernel/proc/scheduler.cc:146-149 | That number is fixed by the state in which the thread dies. |
| `TwiceDeleted.ThreadDeletedTwice` | kernel/proc/scheduler.cc:136-149 | Concrete failure, from boot, with two processors and one thread: it is requeued alive on the first, picked up and killed on the second, and deleted by both. |
| `RoundRobin.Thread.TryUnblock` | kernel/proc/thread.cc:208-217 | Only a blocked thread whose blocker lets go becomes alive; any other state stays. |
| `RoundRobin.PriorityQueue.Enqueue` | kernel/proc/scheduler.cc:33-41 | On one processor the ring is a queue: the thread goes to its end, and the exchange succeeds at once while at most 1024 threads exist, across counter wrap-around. |
| `RoundRobin.PriorityQueue.Dequeue` | kernel/proc/scheduler.cc:43-60 | Takes the front of the queue; null exactly when it is empty. |
| `RoundRobin.Scan` | kernel/proc/scheduler.cc:74-80 | The inner loop stops at the first ready thread of the queue and parks exactly the threads before it, in order. |
| `RoundRobin.Scheduler.Drain` | kernel/proc/scheduler.cc:70-72 | The parked threads go back behind the queues of their priorities, in order. |
| `RoundRobin.Scheduler.ScanQueues` | kernel/proc/scheduler.cc:73-81 | Normal threads are looked at before idle ones. |
| `RoundRobin.Scheduler.PickNext` | kernel/proc/scheduler.cc:69-83 | The whole effect of `pick_next` on the three queues as a function of their contents and of which threads are ready. |
| `RoundRobin.Scheduler.Requeue` | kernel/proc/scheduler.cc:138-141 | The current thread goes to the back of its queue. |
| `RoundRobin.Scheduler.SwitchNext` | kernel/proc/scheduler.cc:136-153 | The whole effect of `switch_next`: new queues, new current thread, which is alive; no other thread changes its state; a thread that died is deleted. |
| `RoundRobin.Scheduler.InsertThread` | kernel/proc/scheduler.cc:124-134 | A new thread goes to the back of the normal queue; inserting an idle thread leaves the multiset of queued threads unchanged. |
| `RoundRobin.DrainKeepsThreads` | kernel/proc/scheduler.cc:70-72 | Draining moves every parked thread and loses none; idle threads are never parked. |
| `RoundRobin.PickKeepsThreads` | kernel/proc/scheduler.cc:73-81 | Picking hands out one ready thread and keeps all the others queued: the multiset of threads is unchanged. |
| `RoundRobin.SwitchKeepsThreads` | kernel/proc/scheduler.cc:136-153 | A switch keeps the multiset of all threads, less a dead current one. |
| `RoundRobin.HappeningKeepsAccount` | kernel/proc/scheduler.cc:124-153 | A switch or an insertion keeps every live thread current or in exactly one queue. |
| `RoundRobin.RunAccountsForThreads` | kernel/proc/scheduler.cc:69-153 | Over every run on one processor each live thread is current or queued exactly once, and `pick_next` always finds one. |
| `RoundRobin.SwitchAdvances` | kernel/proc/scheduler.cc:136-153 | Wherever a runnable normal thread stands (in the normal queue, running, or parked), each switch dispatches it or brings it at least one place forward. |
| `RoundRobin.DispatchedWithinKPlusOne` | kernel/proc/scheduler.cc:69-83 | Any runnable normal thread, also the current one and one parked in the blocked queue, is dispatched within one call of `switch_next` more than there are threads ahead of it, whatever is inserted, blocks, dies or unblocks meanwhile. |
| `RoundRobin.EveryoneInLine` | kernel/proc/scheduler.cc:69-153 | Every live normal thread has a place in that line, in every state of every run. |
| `RoundRobin.EveryRunnableThreadRuns` | kernel/proc/scheduler.cc:69-153 | So every live normal thread that stays runnable comes to run, within a bound that is known beforehand. |
| `RoundRobin.Processor.Switch` | kernel/proc/scheduler.cc:136-153 | The scheduler object over any sequence of switches, insertions, blocks and deaths: `switch_next` always finds a thread, without any assumption on the queues, and the object's past is a run of the kind above. |
| `RoundRobin.Processor.Insert` | kernel/proc/scheduler.cc:124-134 | An insertion extends that run and keeps all threads accounted for, up to 1024 threads. |
| `RoundRobin.Processor.Block` | kernel/proc/thread.hh:82-87 | A current thread that blocks stays accounted for, and the queues do not change. |
| `RoundRobin.Processor.Kill` | kernel/proc/thread.cc:204-206 | A current thread that dies stays accounted for until the next switch deletes it. |
| `SplayTree.RotationKeepsShape` | ustd/splay_tree.hh:83-104 | A rotation keeps parent and child links mutual and the in-order sequence unchanged. |
| `SplayTree.AttachKeepsShape` | ustd/splay_tree.hh:174-181 | Attaching a leaf at a gap adds exactly that node at that place of the in-order sequence. |
| `SplayTree.DetachKeepsShape` | ustd/splay_tree.hh:198-213 | Joining the subtrees of the root removes exactly the root from the in-order sequence. |
| `SplayTree.LinksVisitOrder` | ustd/splay_tree.hh:29-36 | Following the child links in order from any node visits exactly its stretch of the recorded sequence; from the root, all of it. |
| `SplayTree.ZigPays` | ustd/splay_tree.hh:109-114 | The single rotation at the root raises the sum of the ranks of all subtrees by no more than the rank of the node grows. |
| `SplayTree.ZigZigPays` | ustd/splay_tree.hh:115-120 | The double rotation on one side, grandparent first, raises that sum by at most three times what the rank of the node grows, less one for the round. |
| `SplayTree.ZigZagPays` | ustd/splay_tree.hh:121-127 | So does the double rotation on two sides. |
| `SplayTree.RegionTree.Relink` | ustd/splay_tree.hh:83-104 | The pointer assignments of a rotation, with exactly the links that change. |
| `SplayTree.RegionTree.Rotate` | ustd/splay_tree.hh:83-104 | Rotation in place keeps the tree valid and its sequence. |
| `SplayTree.RegionTree.Zig` | ustd/splay_tree.hh:109-114 | Widens the stretch below the node, keeps the sequence, and raises the node by one link, with the account of ranks. |
| `SplayTree.RegionTree.ZigZig` | ustd/splay_tree.hh:115-120 | Widens the stretch below the node, keeps the sequence, raises the node by two links and pays for that out of the ranks. |
| `SplayTree.RegionTree.ZigZag` | ustd/splay_tree.hh:121-127 | Widens the stretch below the node, keeps the sequence, raises the node by two links and pays for that out of the ranks. |
| `SplayTree.RegionTree.Splay` | ustd/splay_tree.hh:107-130 | Terminates with the node at the root and the sequence unchanged, for every node of every valid tree. The depth that the node came from is at most six times the rank that it gains, plus one, plus twice what the sum of ranks falls: the amortised logarithmic bound of splaying. |
| `SplayTree.RegionTree.Successor` | ustd/splay_tree.hh:65-79 | The next node of the in-order sequence, or null after the last. |
| `SplayTree.RegionTree.FindNoSplay` | ustd/splay_tree.hh:133-143 | A node with the key exactly when there is one, after as many links as its depth. |
| `SplayTree.RegionTree.Find` | ustd/splay_tree.hh:146-152 | A node with the key exactly when there is one, then at the root, with the sequence unchanged and the amortised bound on the links followed. |
| `SplayTree.SearchAll` | ustd/splay_tree.hh:146-152 | Any sequence of k searches for keys that are there, in any tree of n nodes, follows at most 2 n rank(n) + k (6 rank(n) + 1) links, where rank(n) is the logarithm to base 2, rounded down. |
| `SplayTree.RegionTree.FindParent` | ustd/splay_tree.hh:156-166 | The descent ends at the node below which the new key belongs, whose child link on that side is free. |
| `SplayTree.RegionTree.Insert` | ustd/splay_tree.hh:155-187 | Adds exactly the given node and keeps the keys sorted. The minimum pointer changes only in an empty tree; so it stays exact if and only if the new key is not below the minimum. |
| `SplayTree.RegionTree.Remove` | ustd/splay_tree.hh:190-216 | Removes exactly the given node, keeps the keys sorted and an exact minimum exact. |
| `SplayTree.StaleMinimum` | ustd/splay_tree.hh:182-186 | Concrete run: inserting 3 after 5 leaves the minimum pointer at 5. |
| `PageTables.PageLevel.Set` | kernel/arch/paging.hh:67-74 | An empty slot is filled and the count follows; the bound on the count needs no check of its own. |
| `PageTables.PageLevel.Unset` | kernel/arch/paging.hh:76-90 | A used slot is emptied and the count follows. |
| `PageTables.PageLevel.Ensure` | kernel/arch/paging.hh:92-100 | The table in the slot, made if the slot was empty; the assertion against large leaves is the precondition. |
| `PageTables.PageLevel.Expect` | kernel/arch/paging.hh:102-107 | The table in the slot; its assertions are the precondition. |
| `PageTables.RoomLeft` | kernel/arch/paging.hh:72-73 | A table with an empty slot has a count below 512. |
| `PageTables.CountZero` | kernel/arch/paging.hh:57-62 | The count is zero exactly when every slot is empty, so both destructor assertions hold together. |
| `PageTables.LeafBelow` | kernel/mem/address_space.cc:71-92 | Because empty tables are freed at once, below every linked table there is a leaf. |
| `PageTables.FreeMeansNoTable` | kernel/mem/address_space.cc:71-123 | Where no leaf covers a path or lies below it, no table is in the way of mapping there. |
| `PageTables.WayToLeaf` | kernel/mem/address_space.cc:71-92 | On the way to a mapped leaf there are only tables, all different, so no `expect` assertion fires. |
| `PageTables.FreeToMap` | kernel/mem/address_space.cc:32-69 | On the way to a free path no `ensure` meets a large leaf and no `set` meets a used slot. |
| `PageTables.PageMap.Map4KiB` | kernel/mem/address_space.cc:32-45 | On a free, aligned path no assertion fires, the abstract map gains exactly this leaf, and every count and link stays right. |
| `PageTables.PageMap.Unmap4KiB` | kernel/mem/address_space.cc:71-92 | On a mapped leaf no assertion fires, the abstract map loses exactly this leaf, and the tables that become empty are freed, so no linked table is empty. |
| `PageTables.PageMap.Map2MiB` | kernel/mem/address_space.cc:47-58 | On a free, aligned path no assertion fires, the abstract map gains exactly this leaf, and every count and link stays right. |
| `PageTables.PageMap.Unmap2MiB` | kernel/mem/address_space.cc:94-110 | On a mapped leaf no assertion fires, the abstract map loses exactly this leaf, and the tables that become empty are freed, so no linked table is empty. |
| `PageTables.PageMap.Map1GiB` | kernel/mem/address_space.cc:60-69 | On a free, aligned path no assertion fires, the abstract map gains exactly this leaf, and every count and link stays right. |
| `PageTables.PageMap.Unmap1GiB` | kernel/mem/address_space.cc:112-123 | On a mapped leaf no assertion fires, the abstract map loses exactly this leaf, and the tables that become empty are freed, so no linked table is empty. |
| `PageTables.WalkIsLookup` | kernel/arch/paging.hh:49-117 | The processor's four-level walk through the linked tables (AMD64 Architecture Programmer's Manual, volume 2, section 5.3) gives exactly what the abstract map holds, for every address. |
| `PageTables.LookupFindsLeaf` | kernel/arch/paging.hh:49-117 | A leaf on the path of an address is the one that the walk ends at, whatever its depth. |
| `PageTables.NothingMappedNothingLeft` | kernel/arch/paging.hh:57-62 | Once nothing is mapped only the PML4 is left and its destructor's assertions hold. |
| `PageEntry.PackedIsNotEmpty` | kernel/arch/paging.hh:40-43 | No packed entry is taken for an empty one. |
| `PageEntry.AddressSurvives` | kernel/arch/paging.hh:40-44 | The address read back is the one stored exactly when it is a 4 KiB multiple below 2^52 and no flag touches those bits. |
| `PageEntry.LargeSurvives` | kernel/arch/paging.hh:40-45 | The Large bit tells leaves from tables for every aligned address. |
| `PageEntry.FlagsSurvive` | kernel/arch/paging.hh:40-45 | The flags read back are the ones stored exactly when none lies above bit 7: Global and NoExecute are stored but not returned. |
| `PageEntry.RightsAreBits` | kernel/arch/paging.hh:12-21 | In the word that the processor reads, present, writable, user, cache disable, large, global and no-execute are bits 0, 1, 2, 4, 7, 8 and 63, each set exactly when the leaf says so, beside the address. |
| `PageEntry.PagePartsSurvive` | kernel/mem/physical_page.hh:23-34 | Address, size and ownership all survive packing for every address below 2^56. |
| `PageEntry.MovedFromOwnsNothing` | kernel/mem/physical_page.hh:26-34 | The word that a move leaves behind owns nothing, and no page that owns frames is packed into it. |
| `Frames.BucketsInBounds` | kernel/mem/memory_manager.cc:44-47 | Every frame has a bucket inside the bitset if and only if the frame count is a multiple of 64. |
| `Frames.BeyondHasNoBucket` | kernel/mem/memory_manager.cc:44-47 | Then a frame number has a bucket if and only if it is below the frame count. |
| `Frames.LastBucketMissing` | kernel/mem/memory_manager.cc:44-79 | Concrete failure: with 65 frames the last one has no bucket. |
| `Frames.MemoryManager.IsFrameSet` | kernel/mem/memory_manager.cc:57-59 | Whether the frame is in use. |
| `Frames.MemoryManager.SetFrame` | kernel/mem/memory_manager.cc:53-55 | Exactly this frame becomes used. |
| `Frames.MemoryManager.ClearFrame` | kernel/mem/memory_manager.cc:49-51 | Exactly this frame becomes free. |
| `Frames.MemoryManager.AllocFrame` | kernel/mem/memory_manager.cc:153-162 | The lowest free frame, or a stop only when all are used. |
| `Frames.MemoryManager.FreeFrame` | kernel/mem/memory_manager.cc:164-170 | Exactly this frame becomes free. |
| `Frames.MemoryManager.AllocContiguous` | kernel/mem/memory_manager.cc:177-199 | The lowest free stripe that starts at a multiple of its own length. Without one nothing changes, and the search runs past the last frame, which the assertion on the index catches, if and only if the count is no multiple of the length and the frames after its last multiple are all free; otherwise it stops for lack of memory. |
| `Frames.StopsPastEnd` | kernel/mem/memory_manager.cc:181-190 | A search that reaches a free tail has passed every stripe in range. |
| `Frames.SearchRunsPastEnd` | kernel/mem/memory_manager.cc:177-199 | Concrete failure: 576 frames of which one is in use, and a request for 2 MiB. |
| `Frames.MemoryManager.FreeContiguous` | kernel/mem/memory_manager.cc:201-211 | Exactly the stripe becomes free. |
| `Frames.PageHolders.Acquire` | kernel/mem/physical_page.cc:8-20 | The lowest vacant stripe at a multiple of the page size, for all three sizes; refused only when there is none. |
| `Frames.PageHolders.Allocate` | kernel/mem/physical_page.cc:8-20 | A new holder owns frames that nobody owned; refused, with nothing changed, only when there is no stripe of that size; the account of every frame stays right. |
| `Frames.PageHolders.TakeFrame` | kernel/mem/memory_manager.cc:153-162 | A direct allocation between page operations: the account stays right and the frame is nobody's page. |
| `Frames.PageHolders.GiveFrame` | kernel/mem/memory_manager.cc:164-170 | A direct free of such a frame keeps the account right. |
| `Frames.PageHolders.TakeFrames` | kernel/mem/memory_manager.cc:177-199 | The same for a stripe, with the exact reason when there is none. |
| `Frames.PageHolders.GiveFrames` | kernel/mem/memory_manager.cc:201-211 | The same for freeing a stripe. |
| `Frames.PageHolders.Move` | kernel/mem/physical_page.hh:26 | The frames change hands and the account of every frame stays right. |
| `Frames.PageHolders.Drop` | kernel/mem/physical_page.cc:26-41 | Frames of an owning page are freed once, those of any other page not at all. |
| `Frames.NoFrameOwnedTwice` | kernel/mem/physical_page.cc:8-41 | Over all page and direct allocations, moves and drops: set bits are exactly the reserved frames and the frames of owned pages, and no two holders share a frame. |
| `Frames.OwnedPagesApart` | kernel/mem/physical_page.cc:8-41 | The pages of two holders that own theirs have no byte in common. |
| `VmObjects.GreedyCovers` | kernel/mem/vm_object.cc:32-43 | Page sizes never grow along the object and add up to the rounded size, for every size. |
| `VmObjects.LargestIsUnit` | kernel/mem/vm_object.cc:38 | The page size for what is left is the largest of 4 KiB, 2 MiB and 1 GiB that is not above it. |
| `VmObjects.GreedyTakesLargest` | kernel/mem/vm_object.cc:37-41 | At every page of the split a larger page would not fit into what is left. |
| `VmObjects.FewestPages` | kernel/mem/vm_object.cc:32-43 | No split of the size into the three page sizes has fewer pages. |
| `VmObjects.OffsetsAligned` | kernel/mem/vm_object.cc:32-43 | Every page starts at a multiple of its own size from the start of the object. |
| `VmObjects.PlacedAligned` | kernel/mem/address_space.cc:127 | All pages are aligned in the address space if and only if the base is a multiple of the largest page, which is the allocator's alignment rule. |
| `VmObjects.Create` | kernel/mem/vm_object.cc:32-43 | The new pages are owned and their sizes are the greedy split of the rounded size; it stops only after the first pages of the split, when there is no stripe of frames for the next one. |
| `VmObjects.CreatePhysical` | kernel/mem/vm_object.cc:45-57 | Pages that own nothing, at consecutive addresses, in the greedy split. |
| `RegionPages.StartOfPath` | kernel/mem/address_space.cc:35-38 | The four indices of an address locate exactly its slot: a path starts at slot number times slot size. |
| `RegionPages.PrefixCovers` | kernel/mem/address_space.cc:35-38 | A path below another covers a part of its address range. |
| `RegionPages.DisjointPathsFree` | kernel/mem/address_space.cc:32-69 | Leaves whose address ranges do not meet are not in each other's way in the tables. |
| `RegionPages.MapPages` | kernel/mem/region.cc:47-64 | Mapping the pages of a region in a free range fires no assertion and adds exactly their leaves. |
| `RegionPages.UnmapPages` | kernel/mem/region.cc:77-92 | Unmapping them fires no assertion and removes exactly their leaves. |
| `AddressSpaces.AddressSpace.AllocateRangeAnywhere` | kernel/mem/address_space.cc:125-153 | The least multiple of the alignment, from the alignment on, whose range meets no region and ends by 2^48; the stop only when there is none. The alignment is the largest of 4 KiB, 2 MiB and 1 GiB that is not above the size. |
| `AddressSpaces.SkipRegion` | kernel/mem/address_space.cc:131-141 | Each step over a region rules out exactly the candidates that it blocks. |
| `AddressSpaces.DisjointInsert` | kernel/mem/address_space.cc:163-167 | A region in a vacant range keeps the regions disjoint and in order. |
| `AddressSpaces.SpecificRangeIff` | kernel/mem/address_space.cc:155-179 | A range taken as it comes keeps the regions disjoint if and only if it meets none of them. |
| `AddressSpaces.AddressSpace.NewRegion` | kernel/mem/address_space.cc:163-167 | For any range: tree and list gain exactly this region, and the whole address space stays valid if and only if the range is not empty, meets no region, ends by 2^48 and, for the first region, starts at 0. |
| `AddressSpaces.AddressSpace.AllocateAnywhere` | kernel/mem/address_space.cc:169-173 | The new region is at the least free candidate and the whole address space stays valid. |
| `AddressSpaces.MapKeepsMatch` | kernel/mem/region.cc:42-64 | Adding the leaves of one region leaves the tables equal to the leaves of all regions. |
| `AddressSpaces.UnmapKeepsMatch` | kernel/mem/region.cc:72-92 | Taking them out leaves exactly the leaves of the other regions. |
| `AddressSpaces.AddressSpace.MapRegion` | kernel/mem/region.cc:42-64 | Mapping any pages that fit adds exactly their leaves and fires no assertion, because the regions are disjoint. |
| `AddressSpaces.AddressSpace.Detree` | kernel/mem/address_space.cc:27-30 | The tree loses exactly this region and its minimum stays exact. |
| `AddressSpaces.AddressSpace.DestroyLast` | kernel/mem/region.cc:37-40 | The region's leaves go and everything else stays valid. |
| `AddressSpaces.AddressSpace.UnmapRegion` | kernel/mem/region.cc:72-96 | Exactly the region's leaves go; the other regions keep theirs. |
| `AddressSpaces.AddressSpace.Clear` | kernel/mem/address_space.cc:22-25 | Destroying all regions leaves an empty tree, no leaf, no table but the PML4, and an empty PML4: all destructor assertions hold. |
| `Translation.VmObjectMappable` | kernel/mem/region.cc:48-64 | The pages of a VM object, at every base that the range allocator can give, meet the alignment assertions of all map calls. |
| `Translation.AllocateRegion` | kernel/syscalls.cc:66-84 | From a request for memory to a mapped region: frames owned by nobody else, the least free range, and leaves for the whole region. It stops for lack of frames only when no stripe is left for the next page of the split, and for lack of addresses only when no candidate is free. |
| `Translation.MakePages` | kernel/mem/vm_object.cc:32-43 | New pages with aligned frames in the greedy split, or as many of them as there were stripes for. |
| `Translation.MapAnywhere` | kernel/mem/address_space.cc:169-173 | A region at the least free range, which the pages fill completely; refused only when no candidate is free. |
| `Translation.WalkFindsPage` | kernel/mem/region.cc:42-64 | For every address of every page of every region, in every valid state, the processor's walk finds that page's frame. The leaf is writable, user, uncached and global exactly when the region's access says so, and no-execute exactly when the access is not executable. |
| `Translation.NewProcess` | kernel/proc/process.cc:24-33 | A new address space is valid, with one region of 512 GiB at 0, writable, executable and global, neither user nor uncached, whose pages lie at their own addresses: the state that the range allocator starts from. |
| `Translation.OverlapBreaks` | kernel/mem/address_space.cc:155-179 | Concrete failure: in a new process a second region at 0 is taken, and the address space is no longer valid. |
| `Translation.PhysicalMappable` | kernel/mem/vm_object.cc:45-57 | Physical pages from address 0 on can be mapped at 0, whatever the size. |
| `Translation.KernelIsIdentity` | kernel/mem/memory_manager.cc:128-129 | As long as that region is in the address space, whatever else is mapped or unmapped, the processor's walk takes every address below 512 GiB to itself, with the rights of the region, one by one. |
| `Translation.SearchPages` | kernel/mem/address_space.cc:188-217 | The loop that never advances its page address takes the first page that is longer than the offset. |
| `Translation.VirtToPhys` | kernel/mem/address_space.cc:181-220 | The answer for an address depends only on the one region with base <= address < end; none without such a region. |
| `Translation.FirstPageOnly` | kernel/mem/address_space.cc:188-217 | For a VM object the answer exists exactly in the first page. |
| `Translation.AnswerIsWalkIff` | kernel/mem/address_space.cc:181-220 | `virt_to_phys` agrees with the processor's walk if and only if the address is in the first page of its region. |
| `Translation.SecondPageMissed` | kernel/mem/address_space.cc:188-217 | Concrete failure: the second page of an 8 KiB object. |
| `Heap.SawFree` | kernel/mem/heap.cc:58-64 | A stretch of free chunks extends the current run of a first-fit scan. |
| `Heap.SawUsed` | kernel/mem/heap.cc:65-68 | A used stretch rules out every start up to its end. |
| `Heap.ScanFound` | kernel/mem/heap.cc:94-97 | A scan that found enough stands at the lowest run. |
| `Heap.ScanMissed` | kernel/mem/heap.cc:94-96 | A full scan that did not find enough shows that there is no run. |
| `Heap.ScanWord` | kernel/mem/heap.cc:69-92 | The count-trailing-zeros loop over one word does what a chunk-by-chunk scan of its 64 bits does, and never asks for the trailing zeros of zero. |
| `Heap.ChunksHold` | kernel/mem/heap.cc:48-50 | The number of chunks holds the 16 bytes of the header and the bytes asked for, and one chunk fewer would not. |
| `Heap.HeapRegion.FindRun` | kernel/mem/heap.cc:50-96 | The word-at-a-time scan is first fit: the lowest run of the desired length in the scanned buckets, or none exactly when there is none. |
| `Heap.HeapRegion.Allocate` | kernel/mem/heap.cc:48-107 | Null exactly when no run is free; otherwise the lowest run, of which exactly the bits are set; no bit assertion fires. The bytes from the pointer to pointer + size lie in the block behind its header, and in one chunk fewer they would not. |
| `Heap.HeapRegion.Deallocate` | kernel/mem/heap.cc:109-120 | Exactly the block's bits are cleared and its header goes; no bit assertion fires. |
| `Heap.HeapRegion.Contains` | kernel/mem/heap.cc:122-132 | Whether the pointer lies in the region's chunks. |
| `Heap.AddBlock` | kernel/mem/heap.cc:97-105 | A block in a free run keeps the blocks disjoint and the set bits exactly those of live blocks. |
| `Heap.RemoveBlock` | kernel/mem/heap.cc:109-120 | Removing a block does the same. |
| `Heap.BitsetFits` | kernel/mem/heap.cc:32-37 | The constructor's assertion holds for every memory size. |
| `KernelHeaps.RoutesAgreeIff` | kernel/mem/heap.cc:150-173 | A block is freed the way it was allocated if and only if its size with the header is within the threshold or its size alone is beyond it. |
| `KernelHeaps.ThresholdBlockIsLost` | kernel/mem/heap.cc:150-173 | Concrete failure: a block of exactly the threshold comes from frames and is looked for in the regions. |
| `KernelHeaps.DirectFreesAllIff` | kernel/mem/heap.cc:151-171 | A direct block gives back all its frames if and only if the size modulo 4096 is between 1 and 4080. |
| `KernelHeaps.OneFrameLost` | kernel/mem/heap.cc:151-171 | Concrete failure: a block of 1 MiB takes 257 frames and gives back 256. |
| `KernelHeaps.FreshRegionHasRoom` | kernel/mem/heap.cc:163 | A fresh region has room for every request below the threshold; the contracts of allocation rest on it. |
| `KernelHeaps.MakeRegion` | kernel/mem/heap.cc:137-141 | A region in a stripe of frames that were free; none only when there is no free stripe of 1 MiB. |
| `KernelHeaps.KernelHeap.CreateRegion` | kernel/mem/heap.cc:137-148 | The new region goes to the end of the list, apart from all others; none only when there is no free stripe. |
| `KernelHeaps.KernelHeap.Allocate` | kernel/mem/heap.cc:150-164 | The first region with room takes the block at its lowest run; a region comes in only when none has room, and then takes the block. So allocation fails only when no region has room and no stripe of 1 MiB is free. The block holds the bytes asked for, with no chunk to spare. |
| `KernelHeaps.KernelHeap.AllocateInNew` | kernel/mem/heap.cc:163 | A region that comes in takes the block at its start; the second allocation never gives null. |
| `KernelHeaps.TakeFrom` | kernel/mem/heap.cc:48-107 | The run found in the bitset is the lowest one that meets no live block, and a miss means that there is none. |
| `KernelHeaps.KernelHeap.FindHome` | kernel/mem/heap.cc:174-175 | Exactly one region of the list contains a live pointer, and the walk stops at it. |
| `KernelHeaps.KernelHeap.DropRegion` | kernel/mem/heap.cc:177-180 | The list loses exactly this region and its frames become free. |
| `KernelHeaps.KernelHeap.Deallocate` | kernel/mem/heap.cc:166-185 | The block goes; its region with it if and only if that was its last block and it is not the first region. |
| `KernelHeaps.Initialise` | kernel/mem/heap.cc:189-194 | One empty region in a stripe that was free, or the stop exactly when there is no such stripe. |
| `KernelHeaps.LiveBlocksApart` | kernel/mem/heap.cc:97-105 | Any two live blocks, of one region or of two, have no byte in common, headers and rounding included; `ClientsApart` says so of the bytes that clients asked for. |
| `KernelHeaps.FreeUndoesAllocate` | kernel/mem/heap.cc:150-185 | On the whole state of the heap (list of regions, live blocks, frames): what a free does is the inverse of what an allocation did, also when that brought in a region. |
| `KernelHeaps.AllocateThenFree` | kernel/mem/heap.cc:150-185 | A call of each: there is a block unless no region has room and no stripe is free, the state between the calls is the allocated one, and the state after them is the one before. |
| `PhysicalMemory.Memory.HeapAllocate` | kernel/mem/heap.cc:137-164 | With pages and heap over one bitset: a heap allocation keeps the account of every frame and reserves exactly the frames of a region that comes in. |
| `PhysicalMemory.Memory.HeapFree` | kernel/mem/heap.cc:166-185 | Freeing a block gives back the frames of its region if that goes, and none that a page owns. |
| `PhysicalMemory.Memory.PageAllocate` | kernel/mem/physical_page.cc:8-20 | Allocating a page takes no frame of a heap region: every block stays, and the account of every frame stays right. |
| `PhysicalMemory.Memory.PageMove` | kernel/mem/physical_page.hh:26 | Moving a page keeps the heap whole and the account right. |
| `PhysicalMemory.Memory.PageDrop` | kernel/mem/physical_page.cc:26-41 | Dropping a page gives back no frame of a heap region: every block stays, and the account stays right. |
| `PhysicalMemory.Memory.TakeFrames` | kernel/mem/memory_manager.cc:177-199 | A direct allocation takes no frame of a heap region or of a page. |
| `PhysicalMemory.Memory.GiveFrames` | kernel/mem/memory_manager.cc:201-211 | Giving directly allocated frames back keeps the heap whole and the account right. |
| `PhysicalMemory.AllocatedReserves` | kernel/mem/heap.cc:137-164 | The stripes of all regions stay reserved across an allocation. |
| `PhysicalMemory.FreedReserves` | kernel/mem/heap.cc:177-180 | And across a free, with only the stripe of a dropped region going back. |
| `PhysicalMemory.BlocksAndPagesApart` | kernel/mem/heap.cc:137-164 | In every reachable state no byte of a live heap block lies in a page that owns its frames; `ClientsAndPagesApart` says so of what clients hold. |
| `HeapClients.Clients.NewInFrames` | kernel/mem/heap.cc:151-157 | A block from the threshold on has frames of its own, which neither a heap region nor another block has; it fails only when there is no stripe for it. |
| `HeapClients.Clients.NewInRegion` | kernel/mem/heap.cc:158-163 | A block below the threshold is in a region; it fails only when no region has room and there is no stripe for a new one. |
| `HeapClients.Clients.New` | kernel/mem/heap.cc:150-164 | `operator new`, by both routes: a pointer that no client holds, recorded with the size asked for; every other client keeps what it has. |
| `HeapClients.Clients.DeleteInFrames` | kernel/mem/heap.cc:169-172 | Frees frames of this block only, as many as its header says, which are never more than it has. |
| `HeapClients.Clients.DeleteInRegion` | kernel/mem/heap.cc:174-184 | Frees the block of this client only, with the region exactly when that was its last block and it is not the first. |
| `HeapClients.Clients.Delete` | kernel/mem/heap.cc:221-227 | `operator delete`, by both routes: exactly this pointer goes, null is left alone, and every other client keeps what it has. |
| `HeapClients.GivesNoMore` | kernel/mem/heap.cc:151-171 | The frames that a direct block gives back are among those that it took, for every size. |
| `HeapClients.ClientsApart` | kernel/mem/heap.cc:150-185 | In every reachable state, with the sizes asked for as ghost data: the bytes of any two live allocations, by whichever route, and their headers do not meet. |
| `HeapClients.ClientsAndPagesApart` | kernel/mem/heap.cc:150-185 | And no byte of a live allocation or of its header lies in a page that owns its frames. |
| `HeapClients.AlignedFitsIff` | kernel/mem/heap.cc:205-215 | Aligned `operator new` gives a multiple of the alignment, with the bytes asked for inside the block; the word that leads back lies in the block if and only if the plain pointer is at least 8 bytes short of the next multiple. |
| `HeapClients.LivePointersAligned` | kernel/mem/heap.cc:205-215 | Every live pointer is a multiple of 16, so the word fits for every alignment that is one. |
| `HeapClients.SmallAlignmentHitsHeader` | kernel/mem/heap.cc:205-215 | Concrete failure: with an alignment of 4 the word lies over the header. |
| `TrbRings.LaidWrite` | servers/usb/trb_ring.cc:47-57 | Writing one block keeps: slots before the index are of this lap, the others of the lap before. |
| `TrbRings.LaidRead` | servers/usb/trb_ring.cc:34-44 | The cycle bit tells a reader exactly whether a block is there for it, and then its slot holds the next block sent, with the writer at most a whole ring ahead. |
| `TrbRings.TrbRing.constructor` | servers/usb/trb_ring.cc:23-32 | A new ring is ready for a producer with a link, or for a consumer without. |
| `TrbRings.TrbRing.Enqueue` | servers/usb/trb_ring.cc:47-59 | The block becomes the next one of the sequence; at the link the lap ends and the cycle state flips. |
| `TrbRings.TrbRing.Dequeue` | servers/usb/trb_ring.cc:34-45 | On the event ring it takes exactly as many steps as there are new events, at most 256, and ends with the producer's index and cycle state; the span is the new events when it does not cross the end. |
| `TrbRings.EventWriter.Post` | servers/usb/trb_ring.cc:34-45 | A producer by section 4.9.4 of the xHCI specification keeps what `dequeue` relies on while it is less than a ring ahead. |
| `TrbRings.Reader.Fetch` | servers/usb/trb_ring.cc:47-57 | A consumer by section 4.9.2 of the xHCI specification gets the next block if and only if there is one and the writer has not passed it at the link. |
| `TrbRings.AtTheLink` | servers/usb/trb_ring.cc:50-56 | The link block is the reader's own if and only if the writer has not come round to it again. |
| `TrbRings.Channel.Send` | servers/usb/trb_ring.cc:47-59 | Over any run, what has been received stays the beginning of what was sent; the controller is stuck only with 255 blocks outstanding and its pointer on the link. |
| `TrbRings.Channel.Receive` | servers/usb/trb_ring.cc:47-59 | Every block is received once and in order across any number of laps; nothing is received if and only if nothing is outstanding or the controller is stuck. |
| `TrbRings.Channel.Settle` | servers/usb/trb_ring.cc:50-56 | Going past the link changes nothing of what has been received, and a controller that was not stuck ends in front of a block slot. |
| `TrbRings.SettledNeverSticks` | servers/usb/trb_ring.cc:47-59 | A controller that goes past the link at once receives after every send, with up to 255 blocks outstanding. |
| `TrbRings.FullLapSticks` | servers/usb/trb_ring.cc:50-56 | Concrete run: 255 blocks sent and received, then 255 more, leave a controller that rests at the link stuck. |
| `Vfs.ConsumePart` | kernel/fs/vfs.cc:53-69 | Parts are slashes or names that a slash or the end follows; what is left has the remaining names. |
| `Vfs.ComponentsJoined` | kernel/syscalls.cc:222-232 | A path joined from plain names has exactly those names. |
| `Vfs.ComponentsBeside` | kernel/fs/vfs.cc:53-69 | The names in two paths with a slash between them are those of the one and then those of the other. |
| `Vfs.ReadAgain` | kernel/syscalls.cc:222-232 | A path joined from any names of inodes, also of roots, is read as these names without the slashes. |
| `Vfs.FileSystems.FindMount` | kernel/fs/vfs.cc:41-48 | The root of the first mount on the inode, or the inode itself. |
| `Vfs.FileSystems.LookupIn` | kernel/fs/ram_fs.cc:86-100 | The child of that name, with dot and dot-dot for the directory and its parent. |
| `Vfs.FileSystems.Follow` | kernel/fs/vfs.cc:82-95 | One part of a path is one lookup and one step through a mount, and stays among the known inodes. |
| `Vfs.FileSystems.ResolvePath` | kernel/fs/vfs.cc:50-98 | The walk along the names of the path, whatever the slashes, with the directory and name of the last part; no directory when an earlier part is missing. The test of the rest after a miss never succeeds. |
| `Vfs.FileSystems.Create` | kernel/fs/vfs.cc:114-127 | Which of the outcomes arises, exactly. A created inode is new in the directory that the path leads to without its last name, sibling names stay different and plain and every round trip stays, unless the name is ".." in a directory without a parent: then and only then the tree is no longer sound. |
| `Vfs.FileSystems.AddChild` | kernel/fs/ram_fs.cc:73-84 | The directory gains exactly this child, and nothing else changes. |
| `Vfs.FileSystems.MountAt` | kernel/fs/vfs.cc:134-143 | For any path, "/" included. A path of plain names leads to the new root if and only if nothing was mounted on what its last name stands for; "/" never does. resolve(getcwd(d)) stays d for every directory that plain names lead to, if and only if the host is not in a listing that plain names lead to, or was mounted on already, or was found in the directory that lists it; and for every directory that any path leads to, if and only if the host was found in the directory that lists it. |
| `Vfs.FileSystems.AddMount` | kernel/fs/ram_fs.cc:23-26 | The new root takes the host's name and the directory it was found in. |
| `Vfs.FileSystems.GetCwd` | kernel/syscalls.cc:215-237 | Whenever the parents of a directory lead to the root, the walk ends and gives the names that they spell. |
| `Vfs.FileSystems.ResolveCwd` | kernel/syscalls.cc:215-237 | For every directory that plain names lead to, getcwd gives exactly those names, and resolving them leads back, from any base. |
| `Vfs.FileSystems.ResolveRelative` | kernel/fs/vfs.cc:71 | For every directory that plain names lead to and every relative path: resolving the path from the directory gives the same place, directory and last name as resolving getcwd, a slash and the path from any base. |
| `Vfs.FileSystems.ResolveAbsolute` | kernel/fs/vfs.cc:71 | A path that begins with a slash gives the same from every base: where its names lead from the root. |
| `Vfs.DotMountBreaks` | kernel/fs/vfs.cc:134-143 | Concrete failure: after a mount on "/a/." the path of the new root is spelled "/a/a", which leads nowhere. |
| `Vfs.DetourMountLost` | kernel/fs/vfs.cc:134-143 | Concrete failure: after a mount on "/x/y/../../x", on which nothing was mounted, that path leads nowhere. |
| `Vfs.RootMountBreaks` | kernel/fs/vfs.cc:134-143 | Concrete failure: after a mount on "/" the path "/." leads to a root without a parent, whose path nothing spells and in which ".." is missing. |
| `Vfs.Spelled` | kernel/syscalls.cc:218-220 | Wherever plain names lead, the parents spell exactly these names. |
| `Vfs.AddKeepsGood` | kernel/fs/ram_fs.cc:73-84 | A new child keeps that, for all paths. |
| `Vfs.PlainPathLeadsToMount` | kernel/fs/vfs.cc:134-143 | For all trees and mounts: a plain path leads to what was mounted on it if and only if nothing had been mounted on what its last name stands for. |
| `Vfs.MisplacedMountBreaks` | kernel/fs/vfs.cc:134-143 | A mount root that stands elsewhere than its exposed host is reached by plain names, and what getcwd spells for it never leads back, even where the walk up ends. |
| `Vfs.MountKeepsRoundTripsIff` | kernel/fs/vfs.cc:134-143 | The exact condition under which a mount keeps every plain-name round trip. |
| `Vfs.EveryPathPlain` | kernel/fs/vfs.cc:82-95 | While hosts are listed children, wherever any path leads, with dots or not, plain names lead too. |
| `Vfs.GoodAllRoundTrips` | kernel/syscalls.cc:215-237 | Then resolve(getcwd(d)) is d for every directory that any path leads to. |
| `Vfs.MountKeepsAllRoundTripsIff` | kernel/fs/vfs.cc:134-143 | The exact condition under which a mount keeps that. |
| `Streams.DoubleBuffer.constructor` | kernel/ipc/double_buffer.cc:12-16 | Two halves of one array that do not overlap. |
| `Streams.DoubleBuffer.Empty` | kernel/ipc/double_buffer.cc:22-25 | Exactly when nothing is left to read. |
| `Streams.DoubleBuffer.Full` | kernel/ipc/double_buffer.cc:27-30 | Exactly when a write of any size would accept nothing. |
| `Streams.DoubleBuffer.Turn` | kernel/ipc/double_buffer.cc:34-38 | Swapping the halves changes nothing of what is left to read. |
| `Streams.DoubleBuffer.Read` | kernel/ipc/double_buffer.cc:32-46 | Gives the next accepted bytes, and none only if none were wanted or left: bytes read followed by bytes buffered stay the bytes accepted. |
| `Streams.DoubleBuffer.Write` | kernel/ipc/double_buffer.cc:48-54 | Accepts as many of the first bytes as there is room for and disturbs nothing that is still to be read. |
| `Streams.Socket.Read` | kernel/ipc/socket.cc:24-26 | Reading one direction leaves the other alone. |
| `Streams.Socket.Write` | kernel/ipc/socket.cc:28-30 | Writing one direction leaves the other alone. |
| `Streams.ServerSocket.QueueConnectionFrom` | kernel/ipc/server_socket.cc:41-48 | Busy if and only if at most one place of the backlog is left; otherwise last in the queue. |
| `Streams.ServerSocket.Accept` | kernel/ipc/server_socket.cc:22-26 | The crossed other end for the client that has waited longest. |
| `Streams.Connect` | kernel/syscalls.cc:108-117 | Two new streams that share nothing, in the queue, or an error and no change. |
| `Streams.Converse` | kernel/ipc/server_socket.cc:22-48 | After connect and accept, over any sequence of reads and writes on both ends: each moves as many bytes as the fill of its direction says; what one end has read is the beginning of what was accepted from the other, in order, and the rest is between them; the directions never mix. |
| `Editor.LoadedSave` | coreutils/te.cc:68-85 | Loading what was saved gives back every document. |
| `Editor.SaveLoaded` | coreutils/te.cc:68-85 | Loading drops exactly what follows the last newline, and adds a newline to a file without one. |
| `Editor.SaveLoadedIff` | coreutils/te.cc:82-84 | Saving what was loaded gives back the file if and only if it ends in a newline. |
| `Editor.UnterminatedLineLost` | coreutils/te.cc:82-84 | Concrete failure: the last line of an unterminated file is lost. |
| `Editor.PositionUnique` | coreutils/te.cc:39-40 | A position in the text belongs to one cursor only. |
| `Editor.TypeRefines` | coreutils/te.cc:201-204 | Typing in a line is inserting one character in the flat text. |
| `Editor.BreakRefines` | coreutils/te.cc:188-199 | Breaking a line is inserting a newline in the flat text. |
| `Editor.EraseRefines` | coreutils/te.cc:177-178 | Backspace in a line is deleting one character of the flat text. |
| `Editor.JoinRefines` | coreutils/te.cc:179-185 | Backspace at the start of a line is deleting the newline before it. |
| `Editor.LeftRefines` | coreutils/te.cc:114-120 | Left is one step back in the flat text, over line ends too. |
| `Editor.RightRefines` | coreutils/te.cc:106-113 | Right is one step forward; at the end it adds a line unless the last one is empty. |
| `Editor.PressMeans` | coreutils/te.cc:87-206 | What each key means for the flat text: one character in, one out, one step, or nothing; vertical moves keep the wanted column. |
| `Editor.VerticalKeysLead` | coreutils/te.cc:121-149 | Key 0x52 leads one line up and 0x51 one line down, past a last line with a character onto a new one; the cursor lands in the wanted column, or at the end of a shorter line. |
| `Editor.DownUndoesUp` | coreutils/te.cc:121-149 | Up and then down comes back to the same line in the wanted column. |
| `Editor.AltArrowsExchange` | coreutils/te.cc:95-104 | Alt with 0x51 or 0x52 exchanges the line with its neighbour, keeps all other lines and takes the cursor along; at the edge it does nothing. |
| `Editor.OtherKeysMean` | coreutils/te.cc:91-206 | Each other key by code and character: start and end of the line, end of the session, nothing, or one character in or out of the flat text. |
| `Editor.TypingInserts` | coreutils/te.cc:87-206 | Any run of typed characters inserts exactly that string at the cursor, whatever the lines. |
| `Editor.TextEditor.Load` | coreutils/te.cc:68-85 | The loop reads exactly the lines of the file, less the last one if there are several. |
| `Editor.TextEditor.Type` | coreutils/te.cc:201-204 | One character more in the flat text, the cursor behind it. |
| `Editor.TextEditor.Break` | coreutils/te.cc:188-199 | One newline more in the flat text, the cursor behind it. |
| `Editor.TextEditor.Backspace` | coreutils/te.cc:175-187 | One character less in the flat text, or nothing at its start. |
| `Editor.TextEditor.Move` | coreutils/te.cc:105-149 | The effect of an arrow key on lines, cursor and saved column. |
| `Editor.TextEditor.Swap` | coreutils/te.cc:95-104 | The line and the cursor change places with the neighbour and nothing else changes. |
| `Editor.TextEditor.ReadKey` | coreutils/te.cc:87-206 | Every key: its effect on the whole state, single-character edits and steps in terms of the flat text, when the editor ends and what it writes. |
| `Editor.TextEditor.WriteFile` | coreutils/te.cc:166-169 | Every line with a newline after it. |
| `Editor.Session` | coreutils/te.cc:243-259 | For every file and every key sequence: the state is what the keys up to the first quitting one make of the loaded file, the file is written exactly when that key is control-x, and the next session loads what was shown. |
| `Shell.Lexer.NextToken` | shell/lexer.cc:35-57 | The loops give the first token of the plain stream, with a complaint exactly when they come to a NUL. |
| `Shell.Lexer.Next` | shell/lexer.cc:59-65 | With or without a buffered token, the next token of the plain stream. |
| `Shell.Lexer.Peek` | shell/lexer.cc:67-73 | The same token, which stays the next one. |
| `Shell.YieldInjective` | shell/parser.cc:29-48 | Different right-nested trees stand for different token sequences. |
| `Shell.Parser.ParseList` | shell/parser.cc:33-40 | All words up to the next pipe or end; the complaint and the failed assertion on a token's text exactly when there is none. |
| `Shell.Parser.ParsePipe` | shell/parser.cc:42-48 | The right-nested tree of the remaining tokens; there is one if and only if no command among them is empty. |
| `Shell.Parser.Parse` | shell/parser.cc:50-56 | No token is ever left over. Without a tree there was a complaint about a command without words; with one there was a complaint if and only if the text has a NUL. |
| `Shell.NulAhead` | shell/lexer.cc:35-57 | A NUL stays ahead of the lexer until it complains about it. |
| `Shell.TokensStopAtNul` | shell/lexer.cc:52-57 | The tokens of a text are exactly those before its first NUL; the rest is dropped. |
| `Shell.NulDropsRest` | shell/lexer.cc:52-57 | Concrete case: of "a", NUL, "b" only the first word is kept. |
| `Shell.LexLayout` | shell/lexer.cc:35-57 | However tokens are laid out with separating spaces, the lexer gives them back. |
| `Shell.ParsePrinted` | shell/parser.cc:13-56 | Printing any pipeline of valid words and lexing and parsing it gives the same tree without a complaint. |
| `Shell.BlanksSeparate` | shell/lexer.cc:25-31 | Single blanks separate every pipeline of valid words. |
| `Shell.TabInWord` | shell/lexer.cc:25-31 | Concrete case: a tab is a space before a word and a character inside it. |
| `CombSort.GapFalls` | ustd/algorithm.hh:74-80 | Despite the step from 9 or 10 up to 11, and despite wrap-around at any width, the gap falls until it is 1 and never exceeds the size. |
| `CombSort.GapShrinks` | ustd/algorithm.hh:74-80 | The gap shrinks by 1.3, rounded down, but never to 9 or 10, for which it takes 11, nor below 1. |
| `CombSort.SwapNeighbours` | ustd/algorithm.hh:82-88 | Swapping two neighbours in the wrong order leaves exactly one inversion less. |
| `CombSort.NeighboursSorted` | ustd/algorithm.hh:82-88 | Neighbours in order make the whole sequence sorted, in every total preorder. |
| `CombSort.Pass` | ustd/algorithm.hh:81-88 | A permutation; with gap 1 a pass that swaps has fewer inversions, and one that does not finds all pairs in order. |
| `CombSort.Sort` | ustd/algorithm.hh:67-90 | Terminates with a sorted permutation, for every total preorder, every length and every width of the size type. |

## Left out

- TicketQueue.RunKeepsInv: holds for runs in which fewer than 2^31 tickets pass during one dequeue and memory is sequentially consistent; `EmptyGuardExact` says what happens to the comparison beyond that.
- RingOrder.FirstInFirstOut: holds while at most 1024 tickets have been taken since the oldest one that is not served; the number of threads does not keep this bound, as `LateTicketOvertaken` shows with two of them.
- RingOvertaking.LeavingWindowLosesOrder: takes two more processors outside the ring, and a thread other than the one of the ticket 1024 before; with fewer processors the continuation may not exist.
- DeadThreads.DeletedOnceIff: reading the state of a thread that has been deleted, which the late processor does, is taken to find it dead.
- RoundRobin.Scheduler.SwitchNext: one processor and at most 1024 threads, so every exchange on a slot succeeds at once; switching address spaces and loading registers are not modelled.
- SplayTree.RegionTree.Insert: says nothing about the ranks that a new leaf adds; the amortised bound is for splaying and searching, and `Remove`, which joins two subtrees without splaying, has none.
- SplayTree.RegionTree.Remove: its precondition is the source's assertion that a removed minimum has no left child.
- Frames.MemoryManager.AllocContiguous: takes a frame count that is a multiple of 64, since other counts index past the bitset. A build without the option `assertions` does not stop at the outcome Beyond but goes on past the bitset; what it does there is not modelled.
- PageEntry.AddressSurvives: the packed words are 64-bit vectors on their own; `PageTables` and `Frames` keep entries and pages as values, and that these are stored as such words is not part of their contracts. Links to tables have no flags in `PageTables`: the source sets writable and user in all of them.
- VmObjects.Create: takes a positive size; with size 0 the loop of the source does not end.
- AddressSpaces.AddressSpace.AllocateAnywhere: takes an address space that has its first region already, as `NewProcess` leaves it.
- Translation.VirtToPhys: takes it that a region that covers the address has a VM object, whose pointer the source follows without a test.
- Heap.HeapRegion.Deallocate: headers are a field of the region, so a client that overwrites one is not modelled.
- KernelHeaps.KernelHeap.Allocate: takes sizes below the threshold; `Clients.New` takes all of them.
- KernelHeaps.KernelHeap.Deallocate: takes blocks that are freed through the regions; the list is a sequence, so its `next` pointers are not modelled.
- HeapClients.Clients.Delete: takes sizes that go back the way they came; `RoutesAgreeIff` says which do, and what the source does to the bitset with the others is not modelled.
- TrbRings.TrbRing.Dequeue: what the span holds when a batch crosses the end of the ring is not stated, because the source's span then runs past the ring.
- TrbRings.TrbRing.Enqueue: one call is one step; a controller that reads between the block and the link is not modelled.
- Vfs.FileSystems.MountAt: the round trips are about directories that a path leads to at that moment; a working directory that a later mount covers is not among them. Removing inodes, opening files and file contents are not modelled.
- Streams.ServerSocket.Accept: takes a waiting client, which the caller has blocked for; reference counts and blocking are not modelled.
- Editor.TextEditor.ReadKey: unbounded columns and lines; drawing the screen and reading key events are not modelled.
- Shell.Parser.Parse: no tree stands for the failed assertion in `Token::text` (shell/token.cc:18); a build without the option `assertions` goes on with an empty word, which is not modelled. Evaluating the tree and the texts of the complaints are left out.
- TLB flushes, locks, interrupts and context switches: hardware.
- Boot, ACPI, PCI, APIC, timers, drivers beyond the ring, framebuffer, fonts and logging: hardware and display.
- ustd/rb_tree.hh: not used by the kernel and not finished.
- The event loop, the configuration and log servers, the posix layer and the build scripts: clients of the system calls, outside the kernel and the programs modelled here.
