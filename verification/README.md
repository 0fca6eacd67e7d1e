# AlexOS memory and scheduling, verified

AlexOS is a small kernel for 64-bit RISC-V. This project models the parts of it that carry its hardest promises and
proves those promises for every input, every run and every reachable state:

- **The buddy frame allocator.** The in-place allocator (intrusive lists, packed bitmap, split and coalesce) computes a
  transformation of free lists. That transformation keeps an exact tiling of memory in canonical form, fails only when no
  run is free, and undoes itself. It is also said, list by list, which block is handed out and where the rest goes.
- **Sv39 page tables and address spaces.** Tables in flat frame memory refine a finite map under both the kernel's walk
  and the hardware's walk, and the hardware's walk is stated on the bytes of memory with bit positions as numbers.
  Superpages mean what 512 small entries mean. A table is the decoding of the bytes of its frame,
  and the nodes of the allocator's lists are the first bytes of free frames, so a write can change a table or a list. For
  as long as no region push has failed after mapping a page, spaces are isolated, share one kernel half, and the allocator
  finds every frame nobody has; and only that long: after such a failure all three can break.
- **The ELF loader, `exec` and the program break.** Every byte sequence is rejected or loaded with the bytes, zeroes and
  permissions the file asks for, and it is said exactly when loading works; the arguments a new process reads are the
  arguments given.
- **The scheduler and wait queues.** A transition system with one step per section that runs with interrupts masked. Each
  task is in exactly one place, only saved and live tasks are dispatched, no wakeup sent to a waiting task is lost, and
  whom `wake_one` and `wake_all` find on a queue they have woken when they return.
- **The kernel heap.** Size classes over the buddy allocator: blocks never overlap, fit their layout, and every byte
  claimed is handed out or on a list. A block given back is the next one handed out.

`dafny verify dfyconfig.toml` checks everything. The versions assumed are Dafny 4.11 and the RISC-V Privileged Architecture
version 20211203 (sections 4.3.2 and 4.4.1) for Sv39.

## Reading order

| files | content |
|---|---|
| `Dyadic` | powers of two, aligned blocks, buddies |
| `BuddySpec`, `BuddyLaws`, `BuddyBitmap`, `BuddyAllocator` | the allocator as a value, its laws, the bitmap, the class in place |
| `SchedulerSpec`, `SchedulerLaws`, `WakeLaws`, `Hart` | the transition system, its laws, what wakeups and exits come to, the code section by section |
| `Prelude`, `LittleEndian`, `Sv39`, `Sv39Tree`, `Memory`, `Hardware` | basics, entries and walks, the tree of tables, frames and their bytes, the hardware's walk over bytes |
| `FrameLists`, `PhysMemory` | the allocator's lists as bytes of free frames, physical memory with that allocator in it |
| `PageTables`, `LinearMap` | the table class, superpages |
| `UserMemory`, `Unicode`, `Framed`, `Spaces`, `UserView`, `Isolation` | user copies, UTF-8, framed regions, address spaces, what user-mode code can read and write, when spaces are isolated |
| `Fork`, `StalePages`, `Processes`, `FreeLists` | duplication, what a failed push leaves behind, many spaces over time, what becomes of the allocator's lists meanwhile |
| `Loader`, `ElfLayout`, `ExecArgs`, `UserProcess` | ELF images, their layout, the argument vector, a whole process image and its break |
| `ProcessSteps`, `LostBlocks` | the operations as steps served by the allocator, and a machine of eight frames in which one loses a block |
| `KernelHeap` | the heap on top of the buddy allocator |

Values that the source updates in place are classes here, and their methods are proved against functions of the old
state; the laws are lemmas about those functions. Frame memory is one object: bytes, page tables as their decoding, and
the allocator's lists in the bytes of free frames. Taking and giving back a frame write those bytes, so every operation
may write free frames, and its contract says that it writes no others but its own. A snapshot (`PageTables.Snapshot`) is
that memory and one table at a moment, so that what an operation may change is a predicate on two snapshots.

The runs of `Processes` are sequences of operations on all spaces of the machine: pushes that go through, pushes that
fail, copies by the kernel, stores by the process, creation of a process, empty, forked or from a file, creation that
fails, removal, and the kernel taking, returning and writing frames of its own. `ProcessSteps` derives each of these steps
but the store from what the methods promise, and from the log of the memory that the step is served by calls of the
allocator and writes to frames on no list (`FreeLists.Served`). `Isolation` is about the memory of one moment: every write goes through the
tables as they are by then, and so does every read. `Load` is what the kernel finds at a user address by its own walk; `UserReads` and `UserWrites`
are what user-mode code can do there by the hardware's walk and permission bits, and `UserView` relates the two exactly.

Where a format or a constant decides what happens, a lemma states it with numbers and apart from the functions that
compute it: `LittleEndian.LittleEndianWords`, `Sv39.PackBits`, `Hardware.WalkIsRaw`, `ElfLayout.HeaderExact`,
`ElfLayout.SegmentExact`, `FrameLists.NodeLayout` and `BuddyAllocator.BitsNeeded`. Each method of `Hart` states, beside the step it
is, what it does to tasks, levels and wait queues.

## Where the code does less than it seems to

- A `push` that fails after mapping some pages returns their frames but leaves their entries in the table.
  `Spaces.AddressSpace.Push` states which pages stay and that they map free frames, and `Spaces.LeftGuard` when any stay: the first
  page was free to map and there were frames for it. Whoever gets such a frame next shares it. `StalePages.SharedFrameExample`
  is a copy into one space that changes what another one reads. `Processes.FailureBreaks` finds, after every such failure and
  for every order in which an allocator may hand out its frames, a continuation that breaks isolation and one that breaks
  the kernel half; `FreeLists.FailureBreaksInOrder` finds both for the order of this one, with its lists intact.
  `Processes.CleanExact` is the exact condition: a step leads to a world that isolates its processes if and only if it is
  not such a failure.
- While such a frame is free, the allocator keeps a node of its lists in it if a free block starts there. `FrameLists.ListsExact`
  states that the lists survive a write if and only if every link of every listed block does. `FreeLists.StaleWrite` is the
  copy that changes a link: the allocator then hands out a frame of the writer's choice, or loses all blocks behind.
  `FreeLists.FailureLoses` derives from the failed push itself that the frame it returned last is first on its list if a block
  starts there, and `LostBlocks.LostBlockExample` is a machine in which that loses a frame.
- A fork while the parent maps a free frame can give that frame to the child. `Fork.ForkIsolation` is the exact condition for
  the two to be isolated, and `Fork.ForkOverStale` the failing input.
- The program break inherits this: `UserProcess.Heap.Adjust` states when a growth fails, which pages a failure leaves mapped
  to free frames, and that while the page at the heap's top is mapped every later growth fails.
- The kernel's tests before it copies for a process look at its own walk and at fewer bits than the hardware does.
  `UserView.WriteTestExact` and `UserView.ReadTestExact` state exactly when they agree; `Loader.WriteOnlySegment` is a segment that
  the kernel fills and copies into but the process can neither read nor write.
- `exec` reads at most 32 arguments of at most 255 bytes. `ExecArgs.ReadBack` states what is read back in every case.
- The loader reports overlapping segments as running out of memory. `Loader.LoadImage` states exactly when it succeeds and
  exactly when it reports that.
- Arguments that outgrow the 256 KiB stack are written below it if the pages there happen to be writable.
  `UserProcess.ExecImage` promises the image as given when they fit, and `ExecArgs.ReadArgsFit` shows that the lists `exec` reads
  always do.

## Model

| member | source | states |
|---|---|---|
| `Dyadic.NestedOrDisjoint` | kernel/src/mm/frame.rs:133-146 | naturally aligned blocks are nested or disjoint, the fact behind splitting and coalescing |
| `Dyadic.BuddyProperties` | kernel/src/mm/frame.rs:285-300 | flipping one index bit gives the other half of the next larger aligned block, and twice gives the block back |
| `BuddySpec.WithoutIsMiddleRemoval` | kernel/src/mm/frame.rs:216-234 | removing a block takes exactly it out of the middle of its list and keeps the order of the rest |
| `BuddySpec.AllocKeeps` | kernel/src/mm/frame.rs:239-270 | a successful allocation keeps tiling and canonical form, and the block given out was free, aligned and of the size asked for |
| `BuddySpec.FreeKeeps` | kernel/src/mm/frame.rs:277-301 | freeing a live block, with all coalescing, keeps tiling and canonical form |
| `BuddyLaws.RunInOneBlock` | kernel/src/mm/frame.rs:285-300 | in canonical form an aligned free run is never fragmented: one listed block holds all of it |
| `BuddyLaws.AllocComplete` | kernel/src/mm/frame.rs:239-270 | allocation fails if and only if no naturally aligned run of that size is free |
| `BuddyLaws.AllocExact` | kernel/src/mm/frame.rs:239-270 | allocation takes the first block of the smallest order with one, hands out its lowest part, puts the upper half of each split on the list of its order, and changes no other list; it fails exactly if all lists from that order to 10 are empty |
| `BuddyLaws.FreeOrLive` | kernel/src/mm/frame.rs:304-316 | every managed frame is free or handed out, never both |
| `BuddyLaws.CanonicalForm` | kernel/src/mm/frame.rs:285-300 | two states with the same allocated frames have the same free blocks at every order |
| `BuddyLaws.FreeExact` | kernel/src/mm/frame.rs:277-301 | a freed block is joined with its buddies level by level for as long as they are free; the result is first on its list, the buddies have left theirs, and no other list changes |
| `BuddyLaws.InitialInv` | kernel/src/mm/frame.rs:133-146 | greedy seeding tiles a region of any length, with no two buddies both free |
| `BuddyLaws.InitialDescends` | kernel/src/mm/frame.rs:133-146 | every seeded list holds its blocks from high to low |
| `BuddyLaws.EveryRunTiles` | kernel/src/mm/frame.rs:239-316 | after any sequence of allocations and frees, live and listed blocks tile the region and their sizes add up to it |
| `BuddyLaws.HistoryDoesNotMatter` | kernel/src/mm/frame.rs:257-300 | two runs that end with the same frames allocated end with the same free blocks |
| `BuddyLaws.FreeingEverythingRestoresSeed` | kernel/src/mm/frame.rs:133-146 | once everything is freed, in whatever order, the free blocks are the seeded ones |
| `BuddyLaws.FreeUndoesAlloc` | kernel/src/mm/frame.rs:239-301 | freeing the block just allocated restores every free list in its original order |
| `BuddyLaws.ReuseIsImmediate` | kernel/src/mm/frame.rs:239-301 | so the next allocation of that order returns the same block |
| `BuddyBitmap.BitIndexInjective` | kernel/src/mm/frame.rs:152-154 | no two valid blocks of any orders share a bit |
| `BuddyBitmap.BitIndexInStorage` | kernel/src/mm/frame.rs:99-131 | every bit lies inside the storage `init` reserves |
| `BuddyBitmap.WriteBit` | kernel/src/mm/frame.rs:164-175 | writing one bit changes the freeness of exactly one block |
| `BuddyAllocator.PhysicallyAligned` | kernel/src/mm/frame.rs:113-122 | alignment relative to the region is alignment in physical memory |
| `BuddyAllocator.RegionFacts` | kernel/src/mm/frame.rs:94-131 | the bitmap lies below the managed frames and inside the region |
| `BuddyAllocator.BitsNeeded` | kernel/src/mm/frame.rs:99-104 | the bitmap has a bit for every block of the orders 0 to 10 |
| `BuddyAllocator.RegionExact` | kernel/src/mm/frame.rs:94-122 | first and last frame are the first and last whole ones of the region, the bitmap takes as few frames as hold its bits, and the managed frames start at the next multiple of 1024 |
| `BuddyAllocator.PushRepresents` | kernel/src/mm/frame.rs:197-210 | linking a block in front keeps every list's links mutually inverse and every bit right |
| `BuddyAllocator.RemoveRepresents` | kernel/src/mm/frame.rs:216-234 | bypassing a block anywhere in a list keeps links and bits right |
| `BuddyAllocator.Allocator.constructor` | kernel/src/mm/frame.rs:94-147 | initialisation gives the seeded lists, and the bitmap never overlaps a managed frame |
| `BuddyAllocator.Allocator.IsFree` | kernel/src/mm/frame.rs:157-161 | the bit of a block says whether it is on its list |
| `BuddyAllocator.Allocator.Push` | kernel/src/mm/frame.rs:197-210 | in place: the block becomes the head of its list |
| `BuddyAllocator.Allocator.Remove` | kernel/src/mm/frame.rs:216-234 | in place: the block leaves its list, wherever it was |
| `BuddyAllocator.Allocator.Alloc` | kernel/src/mm/frame.rs:239-270 | computes the allocation function, fails exactly when no aligned free run exists, result physically aligned, counters exact |
| `BuddyAllocator.Allocator.FreeChecksPass` | kernel/src/mm/frame.rs:277-284 | the checks at the start of freeing hold for every live block |
| `BuddyAllocator.Allocator.Free` | kernel/src/mm/frame.rs:277-301 | computes the coalescing function and removes just that block from the live ones |
| `BuddyAllocator.Allocator.FreeFrames` | kernel/src/mm/frame.rs:309-311 | the counter equals the frames on the lists, and with the live ones makes the region |
| `BuddyAllocator.Allocator.OwnerWrites` | kernel/src/mm/frame.rs:185-190 | whatever owners write into their frames, lists and bitmap stay intact |
| `SchedulerLaws.StepKeeps` | kernel/src/task/scheduler.rs:121-343 | every section of the scheduler keeps the invariant on tasks, queues, waiters and wakers |
| `SchedulerLaws.RunInv` | kernel/src/task/scheduler.rs:283-343 | so it holds in every state of every run |
| `SchedulerLaws.UniquePlacement` | kernel/src/task/scheduler.rs:226-277 | a task that has not exited is in exactly one place: current, previous, queued once, blocked, or being pushed by a waker |
| `SchedulerLaws.DispatchIsSafe` | kernel/src/task/scheduler.rs:283-343 | queued tasks are ready with saved registers, exited tasks are never current, and the running-task panic is unreachable |
| `SchedulerLaws.NeverResumesExited` | kernel/src/task/scheduler.rs:169-191 | the code after the final switch of an exiting task is never reached |
| `SchedulerLaws.BlockedIsReachable` | kernel/src/sync/wait.rs:44-57 | a blocked task still has its entry on the queue it blocked on, or a waker holds it |
| `SchedulerLaws.EntriesBelongToWaiters` | kernel/src/sync/wait.rs:44-57 | every entry belongs to a task inside `wait` on that queue, once, and on no other queue |
| `SchedulerLaws.WakeDelivers` | kernel/src/task/scheduler.rs:133-152 | waking a task inside `wait` marks that wait as woken, whether or not the task was asleep yet |
| `SchedulerLaws.WokenIsStable` | kernel/src/task/scheduler.rs:245-254 | no step turns a woken wait back into a sleep |
| `SchedulerLaws.WokenNeverSleeps` | kernel/src/sync/wait.rs:70-87 | no wakeup is lost: from the wake on, in every continuation, the task does not sleep in that wait |
| `WakeLaws.WakeOneDelivers` | kernel/src/sync/wait.rs:70-75 | in every run, once a call of `wake_one` is over, whatever happened in between: the task at the head of the queue was taken off it and woken by that call, a sleeping one was made ready and then put on the run queue, one on its way to sleep will not sleep |
| `WakeLaws.WakeAllDelivers` | kernel/src/sync/wait.rs:82-87 | the same for every task that was on the queue when `wake_all` emptied it |
| `WakeLaws.ExitIsFinal` | kernel/src/task/scheduler.rs:169-191 | a task that exits is a zombie for good: in no later state of any run is it current or on the run queue |
| `WakeLaws.FirstQueuedRunsFirst` | kernel/src/task/scheduler.rs:51-58 | of two tasks on one level of the run queue the one in front is dispatched first, in every run |
| `SchedulerLaws.DueIsEnabled` | kernel/src/task/scheduler.rs:121-343 | in every reachable state a section whose turn it is never finds a dangling task in `current`, `previous`, a wait queue or the run queue |
| `SchedulerLaws.NeverStuck` | kernel/src/task/scheduler.rs:283-343 | in every reachable state the thread of control that runs has a next step of its own, with no interrupt needed, and never the one past an exit |
| `Hart.RunQueue.Pop` | kernel/src/task/scheduler.rs:56-58 | takes the task queued longest in the highest non-empty level, and leaves all others in order |
| `Hart.RunQueue.Push` | kernel/src/task/scheduler.rs:51-54 | the task becomes the last of its level, of the lowest one if the number is above 2; the other levels are as before |
| `Hart.Hart.constructor` | kernel/src/task/scheduler.rs:51-58 | a fresh hart is at the start of a run |
| `Hart.Hart.Laws` | kernel/src/task/scheduler.rs:121-343 | whatever was called in whatever order: no panic, every task in one place, queued tasks ready and saved, blocked tasks reachable, and a next step |
| `Hart.Hart.Admit` | kernel/src/task/scheduler.rs:121-126 | a new task is ready, outside every operation and last on level 0; no other task and no wait queue changes |
| `Hart.Hart.WaitEnqueue` | kernel/src/sync/wait.rs:45-46 | the task becomes the last entry of that queue, and no other queue, task or level changes |
| `Hart.Hart.WaitLeave` | kernel/src/sync/wait.rs:53-56 | the task's entry leaves the queue it waited on if no wakeup has taken it, wherever it was, and the task is outside the wait |
| `Hart.Hart.WakeOnePop` | kernel/src/sync/wait.rs:70-75 | the first entry leaves the queue and is all that the caller has to wake; an empty queue changes nothing; tasks, levels and other queues stay |
| `Hart.Hart.WakeAllTake` | kernel/src/sync/wait.rs:82-87 | all entries leave the queue and the caller has to wake them in that order; tasks, levels and other queues stay |
| `Hart.Hart.WakeMark` | kernel/src/task/scheduler.rs:133-149 | a blocked task becomes ready, one level up with a new allowance, and is pushed next; any other task gets a note and keeps its state; the caller goes on with the rest, and no other task changes |
| `Hart.Hart.WakePush` | kernel/src/task/scheduler.rs:151-152 | the woken task becomes the last of the level it was raised to, and the caller goes on with the rest |
| `Hart.Hart.WakeOne` | kernel/src/sync/wait.rs:70-75 | the whole call without interrupts in between: the first entry is off the queue, and its task ready and last on its level if it was blocked, or has a note otherwise |
| `Hart.Hart.SwitchToIdle` | kernel/src/task/scheduler.rs:226-277 | switching away consumes a pending wakeup and hands the task to the idle loop |
| `Hart.Hart.BlockCurrent` | kernel/src/task/scheduler.rs:164-166 | the task leaves the hart blocked if no wakeup is pending, and otherwise ready with the wakeup consumed; levels and queues stay |
| `Hart.Hart.YieldNow` | kernel/src/task/scheduler.rs:155-157 | the task leaves the hart ready, with all else as it was |
| `Hart.Hart.ExitCurrent` | kernel/src/task/scheduler.rs:169-191 | the task leaves the hart as a zombie that has exited; levels, queues and the other tasks stay |
| `Hart.Hart.ReschedIfNeeded` | kernel/src/task/scheduler.rs:214-222 | at the trap exit the switch happens exactly if a tick has marked the task |
| `Hart.Hart.FinishSwitch` | kernel/src/task/scheduler.rs:268-271 | the registers are saved before the idle loop looks at the task |
| `Hart.Hart.RunStart` | kernel/src/task/scheduler.rs:283-285 | entering the idle loop is a step |
| `Hart.Hart.RunRequeue` | kernel/src/task/scheduler.rs:288-303 | a ready task that has just left is put last on its own level, a blocked or exited one on none; the branch for a running task is unreachable |
| `Hart.Hart.RunDispatch` | kernel/src/task/scheduler.rs:305-341 | the first task of the first non-empty level leaves it, was ready, saved and not exited, and becomes current and running; the hart waits exactly if all levels are empty |
| `Hart.Hart.RunWaitOver` | kernel/src/task/scheduler.rs:306-319 | coming back from the wait is a step |
| `Hart.Hart.TrapEnter` | kernel/src/trap/mod.rs:137-160 | an interrupt between two sections starts a handler |
| `Hart.Hart.TrapExit` | kernel/src/trap/mod.rs:161-166 | the handler ends once it is in no operation |
| `Hart.Hart.OnTimerTick` | kernel/src/task/scheduler.rs:199-210 | every tick counts against the current task and asks for a switch; the fourth of an allowance moves the task one level down, to 2 at most, and starts a new allowance; no other task changes, and none does without a current one |
| `Sv39.PackRoundTrip` | kernel/src/mm/page_table.rs:144-160 | packing an entry into 64 bits loses neither frame number nor flags |
| `Sv39.PackBits` | kernel/src/mm/page_table.rs:28-60 | a packed entry is the sum of its parts with V, R, W, X, U, G, A, D at bits 0 to 7, the two software bits at 8 and 9 and the frame number from bit 10 |
| `Sv39.UnpackBits` | kernel/src/mm/page_table.rs:144-160 | each flag and the frame number are read from those bits, whatever the word |
| `Sv39.PresentBits` | kernel/src/mm/page_table.rs:334-352 | the word that mapping a page writes: the rights asked for with V, A and D |
| `Sv39.IndicesInjective` | kernel/src/mm/addr.rs:194-197 | among canonical pages the three indices determine the page |
| `Sv39.WalksReadEntries` | kernel/src/mm/page_table.rs:275-297 | both walks depend on nothing but the entries on the way |
| `PageTables.SameWayIsSameRun` | kernel/src/mm/page_table.rs:265-268 | the pages below one entry of a level are one aligned run |
| `PageTables.OtherTable` | kernel/src/mm/page_table.rs:213-217 | a table is unaffected by writes to frames that are neither its own nor shared with it |
| `Memory.StoreDecodes` | kernel/src/mm/page_table.rs:144-160 | writing eight bytes into a frame changes one entry of the table there and no other |
| `Hardware.WalkIsRaw` | kernel/src/mm/page_table.rs:275-297 | the hardware's walk over decoded tables ends exactly where the walk over the bytes does, which takes nine bits of the page number a level, eight bytes an entry and the bits by their numbers |
| `Hardware.MappedIsRaw` | kernel/src/mm/page_table.rs:334-352 | a page reached through a present entry with given rights: the word in memory is the frame number and these bits |
| `FrameLists.NodeRoundTrip` | kernel/src/mm/frame.rs:43-50 | a node written into a frame is read back from it |
| `FrameLists.NodeLayout` | kernel/src/mm/frame.rs:43-50 | the link to the next block is the first eight bytes of the frame and the one to the previous the second, little-endian |
| `FrameLists.ListsExact` | kernel/src/mm/frame.rs:185-234 | whatever is written, the lists can be read from memory as before if and only if every node on them holds what it held |
| `FrameLists.PushThreaded` | kernel/src/mm/frame.rs:197-210 | putting a block on a list writes its frame and that of the first block, nothing else, and the lists can be read again |
| `FrameLists.RemoveThreaded` | kernel/src/mm/frame.rs:216-234 | taking a block off a list writes the frames of its neighbours, nothing else, and the lists can be read again |
| `FrameLists.OpenedKeeps` | kernel/src/mm/frame.rs:133-147 | seeding the lists of a region in its own bytes gives the seeded lists, in order, with all of its frames |
| `FrameLists.TakeKeeps` | kernel/src/mm/frame.rs:239-270 | taking a block, with all splits, computes the allocation function in the bytes of free frames: it writes no other frame, takes exactly that block off the lists, and leaves them in order |
| `FrameLists.GiveKeeps` | kernel/src/mm/frame.rs:277-301 | giving a block back, with all coalescing, puts exactly its frames on the lists, writes only frames that are free then, and leaves the lists in order |
| `FrameLists.GivenFirst` | kernel/src/mm/frame.rs:277-301 | a frame given back that starts a block is first on its list, and a block of its own if its buddy was not on a list |
| `FrameLists.PlayKeeps` | kernel/src/mm/frame.rs:185-301 | after any sequence of calls, and of writes to frames that are on no list, the lists are in order |
| `FrameLists.PlayAccounts` | kernel/src/mm/frame.rs:239-316 | and hold exactly the frames they held, without those taken and with those given back since |
| `FrameLists.SameFreeBlocks` | kernel/src/mm/frame.rs:285-300 | the blocks on lists in order are a function of the frames on them |
| `FrameLists.TakeExact` | kernel/src/mm/frame.rs:216-234 | the first block of a list was overwritten: it can be taken if and only if its links lead anywhere in memory; the lists are right after that if and only if its node was not changed, and otherwise the list goes on where the node says, or with the same block again |
| `PhysMemory.PhysMem.constructor` | kernel/src/mm/frame.rs:94-147 | a memory with all frames on the lists, as seeded |
| `PhysMemory.PhysMem.Alloc` | kernel/src/mm/frame.rs:354-362 | hands out the frame the lists lead to, zeroed; other than that only free frames are written; fails exactly if none is free |
| `PhysMemory.PhysMem.Release` | kernel/src/mm/frame.rs:376-441 | the frame goes back to the lists, and only frames that are free then are written |
| `PhysMemory.PhysMem.WriteFrame` | kernel/src/mm/frame.rs:185-190 | a write to a frame on no list leaves the lists in order; a write to any other is a write to memory all the same |
| `PageTables.PageTable.constructor` | kernel/src/mm/page_table.rs:222-226 | a new table maps nothing |
| `PageTables.PageTable.WalkCreateTo` | kernel/src/mm/page_table.rs:241-262 | creating tables changes no translation, takes exactly the frames missing, and fails exactly when there are fewer free |
| `PageTables.PageTable.MapAtLevel` | kernel/src/mm/page_table.rs:334-352 | exactly the pages below the leaf change under the hardware walk; the error conditions are exact and change no translation |
| `PageTables.PageTable.Map` | kernel/src/mm/page_table.rs:318-325 | one key of the page map is set, every other page translates as before under both walks, and the hardware finds by the bytes of the tables the frame and the word with exactly the rights asked for; errors change nothing |
| `PageTables.PageTable.Lookup` | kernel/src/mm/page_table.rs:275-303 | the lookup is the kernel's walk |
| `PageTables.PageTable.Unmap` | kernel/src/mm/page_table.rs:357-365 | one key is removed and its frame returned; nothing else changes |
| `PageTables.PageTable.Protect` | kernel/src/mm/page_table.rs:379-386 | one key keeps its frame and gets new flags; nothing else changes |
| `PageTables.PageTable.ShareUpperHalf` | kernel/src/mm/page_table.rs:404-413 | upper pages translate as the kernel's do, lower pages as before |
| `PageTables.PageTable.Drop` | kernel/src/mm/page_table.rs:213-217 | dropping returns exactly the frames of the table, none of them shared |
| `LinearMap.SuperpageIs512Pages` | kernel/src/mm/space.rs:102-115 | a 2 MiB leaf and the 512 entries it replaces give the hardware the same translation |
| `LinearMap.MapLinear` | kernel/src/mm/space.rs:92-125 | a linear region is translated page by page as if mapped with 4 KiB entries, and no page outside it changes or gets a superpage on its way; it reports a mapped page exactly for the first slot on its way that is in use |
| `LinearMap.MapWindows` | kernel/src/mm/space.rs:411-449 | building the kernel's space from windows that share no page fails only for lack of frames; then every page of every window is found at its place with its permissions, and no other page of the upper half is mapped |
| `LinearMap.WindowIsRaw` | kernel/src/mm/space.rs:411-449 | by the bytes of the tables, every page of a window leads to the frame as far above the start of memory as the page is above 0xffff_ffc0_0000_0000, with the rights of the window |
| `LinearMap.WindowsHidden` | kernel/src/mm/space.rs:411-449 | if no window is for users, no page of the upper half is |
| `UserMemory.CopyToView` | kernel/src/mm/space.rs:294-320 | a copy in writes the bytes it reaches at their addresses and nothing else |
| `UserMemory.CopyToOutcome` | kernel/src/mm/space.rs:294-320 | it succeeds if and only if every byte is on a page the kernel's test accepts; otherwise it stops at a page boundary |
| `UserMemory.CopyToFrames` | kernel/src/mm/space.rs:306-317 | only frames under writable pages of the space are written |
| `UserMemory.CopyThroughStable` | kernel/src/mm/space.rs:294-320 | if no write into the user pages changes what they map, looking every page up again while copying is the copy over the pages found first |
| `UserMemory.CopyFromView` | kernel/src/mm/space.rs:270-291 | a copy out succeeds if and only if every byte is mapped, and returns the bytes the kernel's walk finds |
| `UserMemory.CopyRoundTrip` | kernel/src/mm/space.rs:270-320 | what was copied in is copied out, across any page boundary |
| `UserMemory.ReadStrExact` | kernel/src/mm/space.rs:323-334 | a string is read if and only if it, and a NUL after it, is mapped at the address and shorter than the limit |
| `Unicode.Utf8Exact` | kernel/src/mm/space.rs:323-334 | a byte string passes the test for UTF-8 if and only if it is the concatenation of the encodings of some scalar values |
| `UserMemory.Isolation` | kernel/src/mm/space.rs:294-320 | page maps on disjoint frames that the writes do not change: however writes interleave, each space ends up with exactly its own |
| `UserMemory.IsolatedReads` | kernel/src/mm/space.rs:294-320 | so no read of one space depends on another space's writes |
| `Framed.MapPage` | kernel/src/mm/space.rs:116-120 | one page takes one frame and the missing tables; the error conditions are exact and give the frame back |
| `Framed.MapFramed` | kernel/src/mm/space.rs:92-125 | all pages are mapped to fresh zeroed frames exactly if none was mapped and there are frames for them and the tables they need; otherwise a prefix is, up to the first obstacle; no frame is lost |
| `Spaces.RegionsDecide` | kernel/src/mm/space.rs:189-193 | a user page translates if and only if one region contains it, to that region's frame and permissions; no frame backs two pages |
| `Spaces.AddressSpace.Push` | kernel/src/mm/space.rs:189-193 | succeeds exactly if there is room, and then adds the region and its pages and takes exactly the frames needed; failure returns every frame, and leaves the stated pages mapped to frames that are free |
| `Spaces.LeftGuard` | kernel/src/mm/space.rs:189-193 | a failed push leaves something behind if and only if its first page was free to map and there were frames for it |
| `Spaces.WriteData` | kernel/src/mm/space.rs:144-167 | writing through the direct map is the copy of the data at that offset; the missing-frame panic is unreachable |
| `Spaces.AddressSpace.PushWithOffset` | kernel/src/mm/space.rs:199-209 | the new region reads as the data at its place and zeroes everywhere else |
| `Spaces.AddressSpace.CopyToUser` | kernel/src/mm/space.rs:294-320 | the loop over pages is the copy that looks every page up in the memory as it is by then, in every state of the tables; in a space whose writable pages map no table it changes no translation, and in one that agrees with its regions it writes nothing but its own frames |
| `Spaces.AgreesSealed` | kernel/src/mm/space.rs:294-320 | a space that agrees with its regions maps no table |
| `Spaces.SealedCopy` | kernel/src/mm/space.rs:294-320 | in a space whose writable pages map no table, that copy is the copy over the pages found first |
| `UserView.HardwareView` | kernel/src/mm/page_table.rs:275-297 | in a space without superpages the hardware reaches for every user page the entry the kernel's walk finds |
| `UserView.UserAccess` | kernel/src/mm/page_table.rs:275-303 | user-mode code reads a byte exactly if the kernel finds it and the entry is for users and readable, writes exactly if it is writable too, and runs it exactly if it is executable |
| `UserView.AccessIsRaw` | kernel/src/mm/page_table.rs:28-60 | what user-mode code can read, write and run is what the bits U, R, W, X, A and D of the word in memory say |
| `UserView.WriteTestExact` | kernel/src/mm/space.rs:294-320 | the kernel's test before writing is the hardware's except on pages that are writable but not readable, or not marked accessed and dirty |
| `UserView.ReadTestExact` | kernel/src/mm/space.rs:270-291 | the kernel's test before reading is the hardware's exactly on pages the user may read |
| `UserView.RegionAccess` | kernel/src/mm/space.rs:92-125 | a page of a region is readable for the process exactly if the region is, writable exactly if it is readable and writable, and executable exactly if the region is and is not writable without being readable |
| `UserView.StoreIsCopy` | kernel/src/mm/space.rs:294-320 | whatever user-mode code can store, a copy by the kernel could have written |
| `UserView.CopyToSeen` | kernel/src/mm/space.rs:294-320 | after a copy in, user-mode code reads the bytes copied wherever it may read, and what it read before elsewhere |
| `UserView.CopyFromSeen` | kernel/src/mm/space.rs:270-291 | what is copied out is what user-mode code reads there, wherever it may read |
| `Isolation.Takeover` | kernel/src/mm/page_table.rs:275-303 | wherever in its tree a table is, once a page written over it has one entry back to itself and one leaf, a page below it maps what the leaf says, for the kernel and the hardware |
| `Isolation.KeptApartIsolates` | kernel/src/mm/space.rs:294-320 | spaces that can write no table and no frame another one sees: whatever copies are made into them in whatever order, each through the tables as they are by then, each space reads as if only its own were made, and the kernel's pages stay where they are |
| `Isolation.IsolationExact` | kernel/src/mm/space.rs:294-320 | and only those: if one can write a table, its own, another's or the kernel's, or a frame another one sees, some copies break this |
| `Spaces.AddressSpace.CopyFromUser` | kernel/src/mm/space.rs:270-291 | the loop over pages is the copy-out function |
| `Spaces.AddressSpace.ReadCstr` | kernel/src/mm/space.rs:323-334 | byte-by-byte reading is the string function, restricted to well-formed UTF-8 |
| `Spaces.AddressSpace.UnmapRegion` | kernel/src/mm/space.rs:129-137 | exactly the pages of the region are unmapped |
| `Spaces.AddressSpace.Drop` | kernel/src/mm/space.rs:379-388 | the allocator gets back exactly the table's frames and the regions' frames |
| `Spaces.HoldsElsewhere` | kernel/src/mm/space.rs:177-180 | a space keeps all its promises while others work with frames that are not its own |
| `Fork.NewUserSpace` | kernel/src/mm/space.rs:184-221 | a new space is empty below and the kernel's above |
| `Fork.Duplicate` | kernel/src/mm/space.rs:235-262 | the child has the same regions on fresh frames with the same bytes; it fails exactly when the frames do not suffice, and then returns every one; the parent is untouched |
| `Fork.ForkedSame` | kernel/src/mm/space.rs:235-262 | the child maps exactly the parent's regions with the same permissions; there both read and can write the same, by the kernel's walk and the hardware's; elsewhere the child reads nothing |
| `Fork.ForkExact` | kernel/src/mm/space.rs:235-262 | child and parent read the same everywhere if and only if the parent's table agreed with its regions |
| `Fork.ForkIsolation` | kernel/src/mm/space.rs:235-320 | after a fork, whatever is written into both in any order, through the tables as they are by then, each reads as if only its own writes had happened and kernel pages stay where they are, if and only if neither can write a table or a frame the other sees; so whenever the parent mapped no free frame and could write no table, in particular when it agreed with its regions |
| `Fork.ForkOverStale` | kernel/src/mm/space.rs:235-320 | a fork that takes a frame the parent can write, be it for a table or for memory, leaves the two not isolated |
| `StalePages.PushOver` | kernel/src/mm/space.rs:189-193 | a push that runs out of memory on its second page leaves the first page mapped, writable, to a frame that is free |
| `StalePages.SharedFrameExample` | kernel/src/mm/space.rs:189-320 | two spaces in one memory: after a failed push into one, a copy into it changes what the other reads |
| `Processes.FirstWorld` | kernel/src/mm/space.rs:182-221 | zeroed memory with an empty kernel table is a world to start from |
| `Processes.StepKeeps` | kernel/src/mm/space.rs:182-388 | a step that is not a push failing with a page mapped leaves the kernel's tables and every other space as they were, for the kernel and for the process |
| `Processes.KernelHalf` | kernel/src/mm/page_table.rs:404-413 | in every run in which no push failed with a page mapped, every process translates every kernel page as the kernel did at the start; kernel tables are never written or freed |
| `Processes.KernelOutOfReach` | kernel/src/mm/page_table.rs:404-413 | in every such run that starts with the kernel's windows, none of them for users, user-mode code of every process can neither read nor write nor run anything in the upper half |
| `Processes.BystanderSeesNothing` | kernel/src/mm/space.rs:229-262 | in every such run, a process that does not step sees nothing change, neither what the kernel finds for it nor what it can read and write |
| `Processes.FailureBreaks` | kernel/src/mm/space.rs:189-320 | after every push of writable pages that failed with a page mapped, in whatever order the allocator hands out its frames: once enough processes are made, a copy changes what one of them sees that does nothing, and a copy breaks its kernel half |
| `Processes.CleanExact` | kernel/src/mm/space.rs:182-388 | a step from a world in order leads to one that isolates its processes in every continuation if and only if it is not such a failure; after one, no order of handing out frames helps |
| `Processes.CleanGuard` | kernel/src/task/process.rs:245-249 | and whether a failing push is one can be told before: its first page is not mapped and there are frames for it |
| `Processes.CleanRunIsQuiet` | kernel/src/mm/space.rs:294-320 | in every run in which no push failed with a page mapped, no copy and no store reaches a free frame |
| `Processes.RunConserves` | kernel/src/mm/space.rs:379-388 | in every run, failed pushes or not, the frames that count as free, the kernel's and those held by processes stay one set |
| `FreeLists.UserWriteExact` | kernel/src/mm/space.rs:294-320 | a copy or store keeps the lists if and only if it changes no link of a listed block; so if it reaches no free frame |
| `FreeLists.CallsKeepLists` | kernel/src/mm/frame.rs:239-301 | a step served by the allocator's calls and by writes to frames on no list leaves the lists in order, holding exactly what counts as free |
| `FreeLists.RunKeepsLists` | kernel/src/mm/frame.rs:185-301 | so in every run of served steps in which no copy and no store reaches a free frame, in particular if no push failed with a page mapped, the lists can be read from memory and hold exactly the free frames |
| `FreeLists.RunConservesLists` | kernel/src/mm/space.rs:379-388 | in every such run in which no push failed with a page mapped, what is on the lists, the kernel's frames and those held by processes stay one set; once all processes are gone and the kernel has what it had, the lists hold the blocks they held |
| `FreeLists.StaleWrite` | kernel/src/mm/frame.rs:185-260 | a process that still maps the first block of a list: a copy makes its node anything, the lists survive if and only if it is what it was, and the next block handed out is the one the copy chose, or there is none |
| `FreeLists.FailureLoses` | kernel/src/mm/space.rs:189-320 | after every push of writable pages that failed with a page mapped, served by the allocator: if the frame of the last page left starts a block it is first on its list, and with other blocks behind it one copy makes the allocator lose all of those |
| `FreeLists.FailureBreaksInOrder` | kernel/src/mm/space.rs:189-320 | and in the order in which the allocator hands out its frames, one of the next processes gets such a frame; then a copy changes what it sees, and a copy breaks its kernel half, with the lists in order throughout |
| `ProcessSteps.ServedByLog` | kernel/src/mm/frame.rs:185-301 | what memory has logged since a moment is how the allocator served the step since then |
| `ProcessSteps.Push` | kernel/src/mm/space.rs:189-193 | what a push promises makes it a growing or a failing step of the machine, served by the allocator; one that fails with pages mapped returns the frame of the last of them last |
| `ProcessSteps.CopyToUser` | kernel/src/mm/space.rs:294-320 | a copy is the copying step, whatever tables and lists hold |
| `ProcessSteps.NewUserSpace` | kernel/src/mm/space.rs:184-221 | making a space is a creating step, or a refused one exactly if no frame is free, served by the allocator |
| `ProcessSteps.Duplicate` | kernel/src/mm/space.rs:235-262 | duplicating a space is a creating step, after which the fork laws apply, or a refused one that wrote only free frames, served by the allocator |
| `ProcessSteps.LoadImage` | kernel/src/loader.rs:82-168 | loading a file is a creating step, or a refused one, served by the allocator |
| `ProcessSteps.ExecImage` | kernel/src/task/process.rs:176-222 | starting a process is a creating step, or a refused one, served by the allocator |
| `ProcessSteps.TakeFrame` | kernel/src/mm/frame.rs:239-270 | the kernel taking a frame for itself is a serving step: the frame the lists lead to, and none exactly if none is free |
| `ProcessSteps.ReturnFrame` | kernel/src/mm/frame.rs:277-301 | so is returning it, which writes it and its neighbours on the lists |
| `ProcessSteps.WriteTaken` | kernel/src/mm/heap.rs:84-109 | so is writing it, which writes no list |
| `ProcessSteps.Drop` | kernel/src/mm/space.rs:379-388 | dropping a space is the removing step, served by the allocator |
| `LostBlocks.LostBlockExample` | kernel/src/mm/space.rs:189-320 | a machine of eight frames and one process: a push fails with a page mapped and two frames are free; after one copy, taking one of them empties the list of both |
| `LittleEndian.LeRoundTrip` | kernel/src/loader.rs:66-79 | a little-endian integer is read back as written |
| `LittleEndian.FromLeDigit` | kernel/src/loader.rs:66-79 | byte `i` is the digit of weight 256^i of the number read |
| `LittleEndian.ToLeDigit` | kernel/src/loader.rs:66-79 | and of the number written |
| `LittleEndian.LittleEndianWords` | kernel/src/loader.rs:66-79 | the words of 2, 4 and 8 bytes, with every byte at its place |
| `Loader.NoOverflow` | kernel/src/loader.rs:111-113 | the offset of a program header never overflows |
| `Loader.MoreHolding` | kernel/src/loader.rs:153-158 | loading one more segment leaves the earlier ones byte for byte as they were |
| `Loader.LoadSegments` | kernel/src/loader.rs:111-161 | the loop loads exactly the segments the headers describe, or stops at the first error; the break is the page boundary at or above them all |
| `Loader.LoadImage` | kernel/src/loader.rs:82-168 | a byte sequence is loaded as parsed exactly if it is acceptable, no two segments share a page and there are frames for all; it ends for lack of memory exactly if the segments before the first bad header do not fit, and with the parse error otherwise; only free frames are written, and failure returns every frame |
| `Loader.SegmentBytes` | kernel/src/loader.rs:142-158 | in a loaded image each byte of each segment is the file's, or zero past the file's; the process reads it exactly if the segment is readable, can write it exactly if it is readable and writable, and can run it exactly if it is executable and not writable without being readable |
| `Loader.ParsedOk` | kernel/src/loader.rs:124-140 | every segment that is loaded lies in the user half above the first page and has no more file bytes than memory |
| `Loader.WriteOnlySegment` | kernel/src/loader.rs:142-151 | a segment that asks to be writable and not readable is out of the process's reach |
| `Loader.SegmentsApart` | kernel/src/loader.rs:153-158 | no page belongs to two segments, and no page is mapped that belongs to none |
| `ElfLayout.PhdrRead` | kernel/src/loader.rs:112-157 | wherever a program header structure lies, the loader takes each field from where the gABI puts it |
| `ElfLayout.EhdrRead` | kernel/src/loader.rs:83-102 | a file header is accepted if and only if it says ELF, 64 bits, little-endian, executable (2) and RISC-V (243) |
| `ElfLayout.TableRead` | kernel/src/loader.rs:111-161 | a table of program headers yields exactly its loadable segments in order, or its first error |
| `ElfLayout.HeaderExact` | kernel/src/loader.rs:83-102 | what the first 64 bytes of any file decide, byte by byte: which error, or which entry point and table |
| `ElfLayout.SegmentExact` | kernel/src/loader.rs:112-157 | what the bytes of a program header decide, wherever it lies: which error, nothing to load, or which segment |
| `ElfLayout.FileRead` | kernel/src/loader.rs:82-168 | a file with a well-formed header: its entry point and its loadable segments in order, or its first error |
| `ElfLayout.PermBits` | kernel/src/loader.rs:142-151 | the three permission bits become the three page permissions of a user page |
| `ExecArgs.Layout` | kernel/src/task/process.rs:33-63 | strings and pointer array do not overlap, strings are 8-byte and the stack pointer 16-byte aligned |
| `ExecArgs.LayoutTight` | kernel/src/task/process.rs:33-63 | and no room is wasted: each string starts at the highest multiple of 8 below the one before, and the stack pointer is the highest multiple of 16 below the last, that leave enough room |
| `ExecArgs.PushArgs` | kernel/src/task/process.rs:38-64 | on success the strings with their NULs, the pointers and the NULL are in place, and nothing outside the stack part changed; it succeeds if that part is writable |
| `ExecArgs.ReadArgsFit` | kernel/src/syscall/mod.rs:174-190 | a list read by `exec` fits below the top of the stack, and on it |
| `ExecArgs.Get` | user/src/lib.rs:280-294 | the process reads, with its own loads, argument `n` exactly as given, and nothing past the end |
| `ExecArgs.ReadArgs` | kernel/src/syscall/mod.rs:174-190 | the argument loop of `exec` is the vector-reading function, without overflow |
| `ExecArgs.ReadBack` | kernel/src/syscall/mod.rs:174-190 | it reads back the very list that was pushed, up to 32 arguments, and faults if and only if one of those has 256 bytes or more |
| `UserProcess.MapUserStack` | kernel/src/task/process.rs:26-31 | maps the whole stack, zeroed and writable, exactly if there is room for it |
| `UserProcess.Prepare` | kernel/src/task/process.rs:182-188 | image and stack are mapped exactly if the file is acceptable and segments and stack fit into memory together |
| `UserProcess.StartedReads` | kernel/src/task/process.rs:176-222 | such a process reads, by the hardware's walk, every byte of its readable segments, the pointer array with its NULL, and every argument with its NUL, as given |
| `UserProcess.StackReads` | kernel/src/task/process.rs:26-31 | the process reads from its stack what the kernel put there, can write it, and can not run it |
| `UserProcess.ExecImage` | kernel/src/task/process.rs:176-222 | with arguments that fit the stack it starts the process exactly if image and stack can be mapped; the process then finds its image and its arguments exactly as given, stack pointer and argument pointer are the pointer array, and the first break is the larger of the page boundary above the segments and 0x1000_0000; failure returns every frame |
| `UserProcess.Heap.constructor` | kernel/src/task/process.rs:214-215 | the heap of a fresh image is empty |
| `UserProcess.Heap.Adjust` | kernel/src/task/process.rs:230-254 | the break moves by exactly the amount asked, exactly if the new break is in range and the heap reaches it or has room to; everything below it is writable and memory gained reads as zeroes; a failed growth leaves the stated pages mapped to free frames |
| `KernelHeap.ClassFor` | kernel/src/mm/heap.rs:75-81 | the smallest class that covers size and alignment |
| `KernelHeap.OrderForIsSmallest` | kernel/src/mm/frame.rs:336-338 | the smallest order that holds that many frames |
| `KernelHeap.CarveIsPage` | kernel/src/mm/heap.rs:95-107 | the blocks cut from a page are exactly its aligned blocks of that size, each once |
| `KernelHeap.BlocksApart` | kernel/src/mm/heap.rs:84-170 | no two blocks of the heap overlap, be they handed out or on a list |
| `KernelHeap.LastInFirstOut` | kernel/src/mm/heap.rs:142-169 | the block returned last is handed out next, and the lists are as before |
| `KernelHeap.HeapSafe` | kernel/src/mm/heap.rs:115-170 | between calls, bytes handed out are the live blocks' bytes, and with the bytes on the lists they are the bytes claimed |
| `KernelHeap.OtherClients` | kernel/src/mm/heap.rs:84-170 | the heap stays in order whatever others take from the frame allocator or give back, as long as its own blocks stay handed out |
| `KernelHeap.HeapInner.OthersAlloc` | kernel/src/mm/frame.rs:257-270 | frames taken by others are none of the heap's and leave it in order |
| `KernelHeap.HeapInner.OthersFree` | kernel/src/mm/frame.rs:277-301 | so does giving back frames that are not the heap's |
| `KernelHeap.HeapInner.Refill` | kernel/src/mm/heap.rs:84-109 | claims one frame, if there is one, and its blocks, lowest first, become the list of the class in front of what was there |
| `KernelHeap.HeapInner.AllocClass` | kernel/src/mm/heap.rs:138-147 | a class with a block on its list hands out the first one and takes nothing from the frame allocator; one without claims exactly one frame and hands out its lowest address; null exactly if there is neither |
| `KernelHeap.HeapInner.Alloc` | kernel/src/mm/heap.rs:116-148 | the block is large enough, aligned and new; it is the first one of the list of its class if there is one, else the lowest of the one frame claimed for the class, and for large requests exactly the frames of the smallest order that holds them; null exactly when the frame allocator has no run for it, or the alignment exceeds a page |
| `KernelHeap.HeapInner.Dealloc` | kernel/src/mm/heap.rs:150-170 | exactly that block stops being live; a small one becomes the first of its list and nothing goes back, a large one gives back exactly its frames |
| `KernelHeap.HeapInner.Reuse` | kernel/src/mm/heap.rs:116-170 | returning a small block and asking for one of that layout again gives the same block; lists, claimed memory and frame allocator are as before |
| `KernelHeap.HeapInner.OwnerWrites` | kernel/src/mm/heap.rs:15-18 | owners may write any bytes of their blocks without harming the lists |

## Left out

- PhysMemory.PhysMem.constructor: memory is what the frame allocator manages; the kernel's image and the bitmap below the managed frames are not in it.
- PhysMemory.PhysMem.Release: gives back one frame at a time; blocks of higher orders on the same bytes are `FrameLists.GiveKeeps`.
- Processes.FailureBreaks: ranges over every order of handing out frames, without the nodes an allocator would write; `FreeLists.FailureBreaksInOrder` is about this allocator with its nodes.
- FreeLists.StaleWrite: says nothing of what happens when the links lead out of this memory, because the source then writes at addresses outside it.
- FreeLists.FailureLoses: follows the removal of one block; what the allocator does after it has lost blocks is not modelled.
- Processes.RunConserves: the operations of a run other than copies and stores start from a space whose regions are still mapped as recorded; what the kernel does with a table that was overwritten is not modelled.
- Sv39.HwWalk: an entry that points outside the modelled memory counts as unmapped.
- ExecArgs.PushArgs: requires that strings and pointer array fit below the top of the stack, exactly the case in which the unchecked subtractions in the source do not wrap; `ExecArgs.ReadArgsFit` shows it for every list `exec` reads.
- UserProcess.ExecImage: says nothing about the image when the arguments need more than the 256 KiB stack, because they are then written below it if the pages there happen to be writable.
- LinearMap.MapWindows: kernel regions are not kept in the region list of the model, because only framed regions own frames; windows that share a page, on which the source panics, are left out.
- Fork.Duplicate: copies the space, not the trap frame, process id or parent link, which are plain record copies.
- Concurrency between harts: secondary harts are parked, and each section with interrupts masked is one step of one hart.
- Liveness of `wait_until` and `waitpid`: the condition is looked at before the task enqueues itself, so the guarantee starts at the enqueue.
- CSR access, inline assembly, context-switch code, `satp` and TLB fences: hardware effects; a context switch is one step.
- Locks, `Once`, `Mutex` and `Semaphore`: locks appear only as the boundaries of sections; the rest are easy counters.
- Drivers, console, timer arithmetic, trap decoding, logging and the shell: input and output or single-function facts.
- Copy-on-write and lazy pages: flag bits are defined in the source and unused.
- Machine word widths elsewhere: addresses and sizes are unbounded naturals; where the source's arithmetic could wrap (`Loader.LoadSegments`, `ExecArgs.ReadArgs`) the value is typed as a 64-bit word.
