# zephyrRS: a verified model

This project models the hard core of the zephyrRS kernel in Dafny and proves properties of it.

**Physical frames and page tables.** Physical memory is a map from frame numbers to 512-entry tables.
The frame allocator is a class over a usage bitmap, a cursor and a memory logger. Copying and freeing
page tables are recursive methods on a class that holds memory and allocator. They are proved against
an abstraction of memory into trees, and the meaning of a tree is the hardware's four-level walk.

**User stacks.** Ten-page stacks at an eight-page stride in one level-1 table, found by a wrap-around
search and freed by recovering indices from an address. The methods walk and change page tables, and
say exactly which result comes when. A run theorem covers every history of one table, and a method
carries an address space through its whole life: copied from the kernel's, any stacks allocated and
freed in it, torn down.

**Sockets, threads and the scheduler.** Sockets, saved registers and the kernel's global variables are
objects with in-place methods. Each method is proved to do what a function on values says, and those
functions make up a transition system whose steps are system calls, interrupts and actions of kernel
code. One invariant is kept by every step. From it follow theorems over whole runs: thread
conservation, exactly-once delivery, request/reply pairing, transparent preemption, exactly one result
per call, bounded waiting, absence of crashes, and address-space agreement. The user library's
packing of calls into registers is included: a message that `receive` returns had been accepted by the
socket its handle names, a `send` that succeeds has had its message delivered there, and the reply that
`send_receive` returns was sent by the thread that got the request. The object carries out any list of
steps as a run of the transition system.

**Heaps.** The bump, linked-list and fixed-size-block heaps, with the masking form of rounding up, and
safety over every run of allocations and releases.

A step of the transition system is atomic because system calls mask interrupts and interrupt wrappers
run with interrupts off. A thread is named by its number; a boxed thread is a reference into the thread
heap, and a saved context is a register record at an address. Page tables are treated as the paging
library does: an entry is unused when its whole word is zero, an entry's frame can be read when it is
present and not huge, and setting flags keeps the frame number.

Where the code falls short of its evident intent, the code is modelled, a concrete input or a run from
boot shows the failure, and the exact condition for success is proved:

| shortfall | condition | shown by |
|---|---|---|
| a frame that has been freed may not be found by later allocations, or ever | `FoundIff`, `FreedFoundIff`, `ComesBackIff` | `FreeFrameNotFound`, `FreedFrameLost` |
| the counted total of frames differs from the grantable ones | `TotalFramesExact` | `PartialPageMiscounted` |
| logged usage is wrong after a stale free | `LogAgreesIff` | `StaleFreeMislogged` |
| freeing a copy of a page table frees the original's user frames | `CopyThenFree` | `CopyFreesUserPage` |
| a freed stack slot is never reused, so a page table has at most 32 stacks in its life | `StackRunInvariant` | `FreedSlotStaysOccupied` |
| the slot search panics when slot 63 is the first unoccupied one | `FindSlot` | `SearchPanicsAt63` |
| a request whose partner has exited is never answered | `WaitsIff`, `OrphanedRequest` | `RequestOrphaned` |
| kernel code that posts a message destroys the thread waiting for it | `PostKeepsThreadsIff`, `DiesIff` | `PostDropsThread` |
| a blocking call with nobody else to run launches context 0 | `CrashesIff` | `CrashReached` |
| a kernel thread can get the CPU under a freed page table | `ResumesSafelyIff`, `FirstRunSafelyIff` | `StaleTableReached`, `StaleListenerReached` |
| rounding up wraps around at the top of the address space | `AlignUpSafeIff`, `AllocSafeIff` | `WrapHandsOutZero` |
| the linked-list heap loses free bytes | `ReleaseConservesIff`, `AllocConservesIff` | `BytesAreLost` |

The condition of `TotalFramesExact` always holds for the boot loader the kernel uses, bootloader 0.9: it
reports memory regions in whole frames. The input of `PartialPageMiscounted` is one another boot loader
could pass on.

`dafny verify dfyconfig.toml` checks the whole project.

## Files

| file | contents |
|---|---|
| `Options.dfy`, `Runs.dfy` | optional values; reasoning over runs of any transition relation |
| `Frames.dfy` | memory map, frame allocator, logger, runs of the allocator |
| `PageTables.dfy` | tables, trees, framing, the hardware walk |
| `AddressSpaces.dfy` | copying and freeing page tables in place |
| `TableWrites.dfy`, `SpaceBalance.dfy` | what one entry write does to a tree; the account of an address space |
| `StackLayout.dfy`, `UserStacks.dfy` | stack slots and their runs; allocating and freeing stacks in page tables |
| `Teardown.dfy` | what a teardown frees, told by paths and flags |
| `SpaceLife.dfy`, `MemoryWitnesses.dfy` | the life of an address space; inputs on which memory code falls short |
| `Threads.dfy`, `Sockets.dfy` | saved registers and results; the socket operations |
| `KernelState.dfy`, `KernelObject.dfy` | the transition system; the same steps as methods on an object |
| `KernelInvariant.dfy`, `KernelSteps.dfy` | the invariant and its preservation |
| `KernelIpc.dfy`, `KernelRegisters.dfy`, `KernelScheduling.dfy`, `KernelSafety.dfy`, `KernelTables.dfy` | theorems over kernel runs |
| `KernelWitnesses.dfy` | runs from boot on which the kernel falls short |
| `Words.dfy` | machine words as numbers |
| `UserApi.dfy`, `UserThreads.dfy` | the user library's side of message passing and of threads |
| `Alignment.dfy`, `Blocks.dfy`, `Bump.dfy`, `LinkedListHeap.dfy`, `FixedBlocks.dfy` | the heaps |

## Model

| member | source | states |
|---|---|---|
| Frames.TotalFramesExact | zephyrRS/kernel/src/mem/memory.rs:281-321 | the counted total equals the number of grantable frames if and only if usable regions are whole pages |
| Frames.UsableFramesDistinct | zephyrRS/kernel/src/mem/memory.rs:311-321 | non-overlapping page-aligned regions list every usable frame once |
| Frames.MapOrder | zephyrRS/kernel/src/mem/memory.rs:311-321 | the usable frames come in map order: frame i of region k comes after all frames of the usable regions before it and the i frames before it |
| Frames.MapCount | zephyrRS/kernel/src/mem/memory.rs:311-321 | and there are no others |
| Frames.MemoryLogger.LogAllocationOf | zephyrRS/kernel/src/mem/memory/memory_logger.rs:64-82 | all counters and the region after a logged allocation, with 64-bit wrap-around; used and free memory keep adding up to the total |
| Frames.MemoryLogger.LogDeallocationOf | zephyrRS/kernel/src/mem/memory/memory_logger.rs:86-101 | all counters and the region after a logged deallocation, with 64-bit wrap-around; used and free memory keep adding up to the total |
| Frames.MemoryLogger.SetTotalMemory | zephyrRS/kernel/src/mem/memory/memory_logger.rs:58-61 | total and free memory; they add up if and only if nothing is logged as used |
| Frames.PageFrameAllocator.AllocateFrame | zephyrRS/kernel/src/mem/memory.rs:357-373 | grants the frame under the cursor, refuses, or panics beyond the bitmap, exactly as the allocator's specification says; bitmap and log agree |
| Frames.PageFrameAllocator.DeallocateFrame | zephyrRS/kernel/src/mem/memory.rs:333-353 | clears one bitmap position, lowers the cursor to a smaller frame number, logs |
| Frames.UsedAreUsable | zephyrRS/kernel/src/mem/memory.rs:333-373 | over every run only usable frames inside the bitmap are in use |
| Frames.FrameOwnership | zephyrRS/kernel/src/mem/memory.rs:333-373 | in every run without stale frees a frame is in use exactly when granted once more than returned: no frame has two holders |
| Frames.LoggedUsage | zephyrRS/kernel/src/mem/memory/memory_logger.rs:64-101 | over every run logged usage is 4096 times the bitmap's size less the stale frees, modulo 2^64 |
| Frames.LogAgreesIff | zephyrRS/kernel/src/mem/memory/memory_logger.rs:86-101 | logged usage is the true usage if and only if the number of stale frees is a multiple of 2^52 |
| Frames.PeakIsMaximum | zephyrRS/kernel/src/mem/memory/memory_logger.rs:64-82 | the peak bounds the usage after every prefix without stale frees, and some prefix attains it |
| Frames.AllocateOnlyRun | zephyrRS/kernel/src/mem/memory.rs:357-373 | taking only, the k-th grant is the k-th entry of the list, and it succeeds exactly as often as the list is long |
| Frames.GrantsInMapOrder | zephyrRS/kernel/src/mem/memory.rs:311-373 | over a memory map: after the frames of the usable regions before region k and i more, a fresh allocator grants frame i of region k |
| Frames.GrantsEnd | zephyrRS/kernel/src/mem/memory.rs:311-373 | and after all of them none |
| AddressSpaces.FoundIff | zephyrRS/kernel/src/mem/memory.rs:333-373 | a free usable frame is granted by allocations alone if and only if the cursor is not past it and every position from the cursor up to it is free |
| AddressSpaces.FreedFoundIff | zephyrRS/kernel/src/mem/memory.rs:333-373 | the same for a frame just freed, with the cursor the free leaves |
| AddressSpaces.ComesBackIff | zephyrRS/kernel/src/mem/memory.rs:333-373 | over every run of allocations and frees, a cursor past position p comes back to it or before it if and only if a frame numbered p or less is freed |
| AddressSpaces.LostUntilBack | zephyrRS/kernel/src/mem/memory.rs:333-373 | until then the frame at position p is not granted |
| AddressSpaces.FreedFrameLost | zephyrRS/kernel/src/mem/memory.rs:344-373 | after the run that frees frame 1 of 1, 2, 3 no run of allocations and of frees of usable frames is ever granted it |
| Frames.FreeFrameNotFound | zephyrRS/kernel/src/mem/memory.rs:344-373 | a run on usable frames 1, 2, 3 after which frame 1 is free and the allocator reports none |
| PageTables.TreeFrame | zephyrRS/kernel/src/mem/memory.rs:192-225 | a tree depends only on the frames that hold its tables |
| PageTables.SameTranslation | zephyrRS/kernel/src/mem/memory.rs:192-225 | trees that differ only in where their tables live translate every address alike, at every level |
| PageTables.SameUserFrames | zephyrRS/kernel/src/mem/memory.rs:416-454 | trees that differ only in where their tables live own the same user frames |
| AddressSpaces.PhysicalMemory.CreatePagetable | zephyrRS/kernel/src/mem/memory.rs:618-633 | a zeroed table in a fresh frame, or a panic exactly when no frame is granted |
| AddressSpaces.PhysicalMemory.CopyPagesRec | zephyrRS/kernel/src/mem/memory.rs:192-225 | copies a tree into a zeroed table using exactly the next frames, parents first; fails exactly when there are too few |
| AddressSpaces.PhysicalMemory.CopyPagetables | zephyrRS/kernel/src/mem/memory.rs:179-235 | a whole copy is a copy of the root's tree in fresh frames, or a panic exactly when frames run out |
| AddressSpaces.PhysicalMemory.FreePagesRec | zephyrRS/kernel/src/mem/memory.rs:416-454 | releases contents before tables, in the order the specification lists; panics exactly on a user-owned huge page |
| AddressSpaces.FreeAllExact | zephyrRS/kernel/src/mem/memory.rs:333-353 | freeing a list is set subtraction however often frames repeat; every free is logged |
| AddressSpaces.SourceUnchanged | zephyrRS/kernel/src/mem/memory.rs:179-235 | a copy leaves every table of the source as it was |
| AddressSpaces.CopyPreservesMeaning | zephyrRS/kernel/src/mem/memory.rs:179-235 | every walk gives the same frame and flags in copy and source, huge pages included; each table of the copy is in a frame that was free |
| AddressSpaces.TeardownExact | zephyrRS/kernel/src/mem/memory.rs:416-464 | teardown subtracts exactly the tables and user frames from the frames in use, even when mappings share frames |
| Teardown.UserFramesIff | zephyrRS/kernel/src/mem/memory.rs:429-441 | a frame is a user frame of a space if and only if some path leads to an entry that maps it and is present, writable and user-accessible, all three |
| Teardown.TablesIff | zephyrRS/kernel/src/mem/memory.rs:427-450 | a frame holds a table of the space if and only if some path of entries that are neither zero nor huge leads to it |
| Teardown.PanicsIff | zephyrRS/kernel/src/mem/memory.rs:429-441 | a teardown panics if and only if some path leads to a huge page with all three flags |
| Teardown.StaysInUseIff | zephyrRS/kernel/src/mem/memory.rs:416-464 | after a teardown a frame is in use if and only if it was, holds no table of the space, and is not mapped with all three flags |
| Teardown.KernelPagesStay | zephyrRS/kernel/src/mem/memory.rs:434-440 | frames mapped only without the user flag, and holding no table, survive every teardown |
| AddressSpaces.CopyThenFree | zephyrRS/kernel/src/mem/memory.rs:179-464 | copy then free takes away exactly the source's user frames, so it is the identity on usage if and only if no such frame is in use |
| TableWrites.ReachedIsTable | zephyrRS/kernel/src/mem/memory.rs:678-692 | whatever a path of table entries leads to is a table of the tree |
| TableWrites.TableIsReached | zephyrRS/kernel/src/mem/memory.rs:678-692 | every table of the tree is reached by some path |
| TableWrites.WriteEntry | zephyrRS/kernel/src/mem/memory.rs:555-615 | a write to one entry exchanges that entry's tables and user frames in the tree and changes nothing else |
| SpaceBalance.CopySound | zephyrRS/kernel/src/mem/memory.rs:657-663 | a fresh kernel-only address space is sound and owns exactly what it was granted |
| SpaceBalance.LifecycleRestoresUsage | zephyrRS/kernel/src/mem/memory.rs:179-615 | a space that keeps sound and balanced between its creation and its teardown gives back exactly the frames it took |
| SpaceLife.Carry | zephyrRS/kernel/src/mem/memory.rs:534-615 | any list of stack allocations and frees in one address space, command by command: each allocation has the outcome its table and cursor call for, each free releases and clears exactly its stack, and it stops exactly at the first command that panics; the space stays sound and balanced, and at most 32 stacks are completed |
| SpaceLife.LiveAndDie | zephyrRS/kernel/src/mem/memory.rs:179-663 | copy the kernel table, carry out a list of stack allocations and frees, tear down: the copy fails if and only if frames run out, the life stops exactly at the first command that panics, and otherwise the frames in use are exactly those before |
| StackLayout.IndicesRecovered | zephyrRS/kernel/src/mem/memory.rs:590-611 | for every slot up to 62 the end address leads back to the stack's table and to entries 8n..8n+10 |
| StackLayout.VisitsEach | zephyrRS/kernel/src/mem/memory.rs:555-572 | the wrap-around search visits every slot once |
| StackLayout.FindSlot | zephyrRS/kernel/src/mem/memory.rs:555-587 | finds the first slot from the start that is not occupied; full if and only if every slot is occupied; panics if and only if slot 63 comes first |
| StackLayout.TwoApartDisjoint | zephyrRS/kernel/src/mem/memory.rs:561-611 | stacks two slots apart share no page, leave six entries between them, and a free of one clears no page of the other |
| StackLayout.AtMost32 | zephyrRS/kernel/src/mem/memory.rs:555-587 | at most 32 slots are pairwise two apart |
| StackLayout.StackRunInvariant | zephyrRS/kernel/src/mem/memory.rs:534-615 | over every run live stacks are two slots apart and intact, and at most 32 stacks are ever completed in one table |
| StackLayout.FreeInvertsAllocate | zephyrRS/kernel/src/mem/memory.rs:576-615 | a free releases the ten frames of the stack in reverse, and nothing more if and only if the entry below it is not a mapped page |
| StackLayout.ReleaseIsLocal | zephyrRS/kernel/src/mem/memory.rs:590-615 | a free leaves every page of every other live stack as it was |
| UserStacks.ReachStackTable | zephyrRS/kernel/src/mem/memory.rs:534-554 | walks to the stack table; succeeds if and only if the missing tables can be granted, takes exactly the next frames for them, and leaves an existing table as it is; the space stays sound and balanced |
| UserStacks.AllocateStack | zephyrRS/kernel/src/mem/memory.rs:534-587 | which result comes when: the first unoccupied slot is filled with the next ten frames, part of it when frames run out, or nothing changes; the space stays sound and balanced |
| UserStacks.StackOutcomeIff | zephyrRS/kernel/src/mem/memory.rs:555-587 | which of the four results comes when, each if and only if: full, a panic at slot 63 or beyond the bitmap, a stack, or an error for want of frames |
| UserStacks.BeyondIff | zephyrRS/kernel/src/mem/memory.rs:357-373 | filling a slot leaves the bitmap if and only if the first of the next ten positions that cannot be granted lies beyond it |
| UserStacks.MapPage | zephyrRS/kernel/src/mem/memory.rs:576-582 | maps the frame the allocator offers at the entry, or changes nothing when none is granted |
| UserStacks.FillSlot | zephyrRS/kernel/src/mem/memory.rs:574-587 | maps the next frames of the cursor as the pages of one slot, stopping exactly when none is granted |
| UserStacks.CompleteIff | zephyrRS/kernel/src/mem/memory.rs:574-587 | a slot is filled if and only if ten frames can be granted |
| UserStacks.FreeStack | zephyrRS/kernel/src/mem/memory.rs:590-615 | from the end address alone, releases exactly the writable entries' frames and clears eleven entries; the space stays sound and balanced |
| UserStacks.LevelOneReached | zephyrRS/kernel/src/mem/memory.rs:678-692 | the level-1 table found from an address is the one the stack path leads to |
| UserStacks.ReadyAgain | zephyrRS/kernel/src/mem/memory.rs:534-615 | after any stack operation the space is ready for the next |
| UserStacks.CopyIsReady | zephyrRS/kernel/src/mem/memory.rs:657-663 | a copied kernel-only space is ready for stacks |
| MemoryWitnesses.PartialPageMiscounted | zephyrRS/kernel/src/mem/memory.rs:281-321 | a region of one page and one byte: two frames listed, one counted |
| MemoryWitnesses.StaleFreeMislogged | zephyrRS/kernel/src/mem/memory/memory_logger.rs:86-101 | a double free after which the logged usage of an empty memory is 2^64 - 4096 |
| MemoryWitnesses.CopyFreesUserPage | zephyrRS/kernel/src/mem/memory.rs:179-464 | a page table whose user page is no longer in use after its copy is freed |
| MemoryWitnesses.FreedSlotStaysOccupied | zephyrRS/kernel/src/mem/memory.rs:555-615 | a stack allocated and freed, whose slot still counts as occupied |
| MemoryWitnesses.SearchPanicsAt63 | zephyrRS/kernel/src/mem/memory.rs:555-587 | an empty table on which the search panics |
| Threads.ThreadHeap.ReturnError | zephyrRS/kernel/src/proc/process.rs:206-208 | writes a code into the thread's saved rax and nothing else |
| Threads.ThreadHeap.ReturnMessage | zephyrRS/kernel/src/proc/process.rs:210-220 | writes success and the three words into the thread's saved registers |
| Sockets.SocketCell.Send | zephyrRS/kernel/src/sync.rs:53-96 | new state, threads handed back and results written, in all four states |
| Sockets.SocketCell.Recv | zephyrRS/kernel/src/sync.rs:104-135 | the same for receive |
| Sockets.SocketCell.SendRecv | zephyrRS/kernel/src/sync.rs:141-179 | the same for a request |
| Sockets.SocketConservation | zephyrRS/kernel/src/sync.rs:53-179 | no operation loses or duplicates a thread |
| Sockets.ReturnedAreAnswered | zephyrRS/kernel/src/sync.rs:53-179 | exactly the threads handed back get a result, one each |
| Sockets.DeliveryStep | zephyrRS/kernel/src/sync.rs:53-179 | pending plus accepted is delivered plus pending, in order |
| Sockets.RefusedIff | zephyrRS/kernel/src/sync.rs:53-179 | an operation is refused if and only if the socket is in one of the states that turn it away |
| Sockets.RefusalCodes | zephyrRS/kernel/src/sync.rs:53-179 | the code each refusing state gives each operation; the socket stays as it is and the caller goes on |
| Sockets.OnlyPartnerReplies | zephyrRS/kernel/src/sync.rs:65-171 | a requester tied to p is released by a message from p; everything else is refused with the state unchanged |
| Sockets.RequestTiesPartner | zephyrRS/kernel/src/sync.rs:104-171 | a request that reaches a thread ties the socket to it |
| KernelObject.Kernel.constructor | zephyrRS/kernel/src/proc/process.rs:28-42 | the state at boot |
| KernelObject.Kernel.ScheduleThread | zephyrRS/kernel/src/proc/process.rs:420-424 | puts a thread in front of the queue |
| KernelObject.Kernel.SetCurrentThread | zephyrRS/kernel/src/proc/process.rs:242-248 | replaces the running thread; a thread found there is queued again |
| KernelObject.Kernel.UpdateCurrentThread | zephyrRS/kernel/src/proc/process.rs:792-804 | parks the running thread behind the queue with its context and the active page table |
| KernelObject.Kernel.Reschedule | zephyrRS/kernel/src/proc/process.rs:819-848 | parks, selects the front, sets interrupt stack and page table, returns the context to launch |
| KernelObject.Kernel.Resume | zephyrRS/kernel/src/syscall.rs:294-314 | the loop over the handed-back pair: the caller goes on, the other is queued, or another thread is launched |
| KernelObject.Kernel.SysReceive | zephyrRS/kernel/src/syscall.rs:277-321 | the receive call as the transition system's step |
| KernelObject.Kernel.SysSend | zephyrRS/kernel/src/syscall.rs:334-391 | the send and request calls as the transition system's step |
| KernelObject.Kernel.SysYield | zephyrRS/kernel/src/syscall.rs:396-404 | the yield call as the transition system's step |
| KernelObject.Kernel.ForkCurrentThread | zephyrRS/kernel/src/proc/process.rs:708-766 | fork as the transition system's step, with both error results |
| KernelObject.Kernel.Retain | zephyrRS/kernel/src/proc/process.rs:775 | keeps the other queued threads in order |
| KernelObject.Kernel.ExitCurrentThread | zephyrRS/kernel/src/proc/process.rs:769-788 | exit as the transition system's step; the process goes with its last thread |
| KernelObject.Kernel.DropProcess | zephyrRS/kernel/src/proc/process.rs:251-259 | switches away from the page table if it is active, then frees it |
| KernelObject.Kernel.DropThread | zephyrRS/kernel/src/proc/process.rs:251-286 | removes the thread, and with the last thread of a process its page table |
| KernelObject.Kernel.DispatchSyscall | zephyrRS/kernel/src/syscall.rs:178-207 | the call selected by the low byte of the call word |
| KernelObject.Kernel.TimerHandler | zephyrRS/kernel/src/boot/interrupts.rs:124-143 | the timer interrupt as the transition system's step |
| KernelObject.Kernel.KeyboardHandler | zephyrRS/kernel/src/boot/interrupts.rs:417-466 | the keyboard interrupt as the transition system's step; the context to restore is the interrupted one unless somebody was waiting, and then the selected thread's |
| KernelObject.Kernel.SpawnKernelThread | zephyrRS/kernel/src/proc/process.rs:357-417 | a new kernel thread with a fresh number in front of the queue |
| KernelObject.Kernel.SpawnUserThread | zephyrRS/kernel/src/proc/process.rs:585-649 | a new user thread, or no thread but two numbers drawn when no stack is found |
| KernelObject.Kernel.PostMessage | zephyrRS/kernel/src/main.rs:48 | a send whose handed-back thread is dropped, with its process and page table if it was the last |
| KernelObject.Kernel.Step | zephyrRS/kernel/src/boot/interrupts.rs:124-466 | whatever step comes, the object does what the transition system does |
| KernelObject.Kernel.Execute | zephyrRS/kernel/src/syscall.rs:178-404 | carrying out a list of steps is a run of the transition system |
| KernelObject.TraceIsRun | zephyrRS/kernel/src/syscall.rs:178-404 | if every step could happen, it is a run that the theorems over runs speak of |
| KernelSteps.ExitSweepIsIdle | zephyrRS/kernel/src/proc/process.rs:775 | the sweep of the queue at exit removes nobody |
| KernelSteps.RendezvousKeeps | zephyrRS/kernel/src/syscall.rs:277-391 | a socket call keeps the invariant, and crashes exactly when the caller blocks and the queue is then empty |
| KernelSteps.PostKeepsThreadsIff | zephyrRS/kernel/src/main.rs:48 | a post keeps every thread if and only if no unrestricted receiver waits; otherwise it destroys the receiver and nobody else |
| KernelSteps.StepKeeps | zephyrRS/kernel/src/syscall.rs:178-404 | every step keeps: each live thread in exactly one place, contexts on own stacks, processes and page tables agreeing, CPU agreeing with the running thread |
| KernelSteps.BootInv | zephyrRS/kernel/src/proc/process.rs:28-42 | the invariant holds at boot |
| KernelIpc.RunInv | zephyrRS/kernel/src/syscall.rs:178-404 | every reachable state satisfies the invariant |
| KernelIpc.SocketsAfter | zephyrRS/kernel/src/syscall.rs:277-391 | a step changes the socket it operates on as the operation says and no other |
| KernelIpc.ExactlyOnceDelivery | zephyrRS/kernel/src/sync.rs:53-179 | over every run what a socket accepted is, in order, what it delivered followed by the at most one message pending |
| KernelIpc.WaitsForPartner | zephyrRS/kernel/src/sync.rs:65-171 | through any stretch in which p does not send on the socket, a requester tied to p keeps waiting |
| KernelIpc.WaitsIff | zephyrRS/kernel/src/sync.rs:65-171 | a requester tied to p waits through a stretch of a run if and only if p does not send on the socket in it |
| KernelIpc.ReplyReleases | zephyrRS/kernel/src/sync.rs:65-171 | a message from p releases the requester with that message |
| KernelIpc.ThreadsAfter | zephyrRS/kernel/src/proc/process.rs:44-50 | the counter never falls and new threads get numbers above it |
| KernelIpc.GoneForGood | zephyrRS/kernel/src/proc/process.rs:769-788 | a thread that is gone never comes back |
| KernelIpc.OrphanedRequest | zephyrRS/kernel/src/sync.rs:65-171 | if the partner exits before replying the requester waits in every continuation |
| KernelRegisters.SuspendedThroughStep | zephyrRS/kernel/src/proc/process.rs:206-220 | whatever happens while a thread is off the CPU, unless it is dropped, its record stays and its saved registers change only by results a socket wrote for it |
| KernelRegisters.HeldAfter | zephyrRS/kernel/src/sync.rs:53-179 | a held thread is released by exactly one result, and nobody else gets one but the caller |
| KernelRegisters.PreemptionIsTransparent | zephyrRS/kernel/src/boot/interrupts.rs:124-143 | a thread displaced by timer, key press or yield next runs with exactly the registers it had, and they are the ones at the address schedule answers |
| KernelRegisters.CallReturnsOnce | zephyrRS/kernel/src/syscall.rs:277-391 | a send, receive or request gets exactly one result before the thread runs again, and the registers the CPU is then loaded with differ from those of the call only by it |
| KernelRegisters.ForkedChildStarts | zephyrRS/kernel/src/proc/process.rs:738-746 | a forked child is started with its parent's registers but for stack pointer and zero results |
| KernelRegisters.ForkNumbers | zephyrRS/kernel/src/proc/process.rs:738-747 | what fork puts into registers are the child's number and the end of its stack, modulo 2^64 |
| Words.WordIsNumber | zephyrRS/kernel/src/proc/process.rs:738-747 | the machine word of a number stands for it, modulo 2^64 |
| KernelRegisters.ForkMakesSibling | zephyrRS/kernel/src/proc/process.rs:708-766 | the child has the parent's type, process and page table and its own stacks, and waits behind the queue; the parent goes on and is told the child's number |
| KernelRegisters.BadHandleRefused | zephyrRS/kernel/src/syscall.rs:315-319 | a call on a handle that the process's table does not have returns error 3 and touches no socket and no other thread |
| KernelRegisters.CallOnHandle | zephyrRS/kernel/src/syscall.rs:277-391 | a call on handle h changes exactly the socket that the process's table has for h, as the operation says |
| KernelScheduling.QueueMoves | zephyrRS/kernel/src/proc/process.rs:420-848 | a step moves a queued thread back by the threads that jump the queue and forward by one selection |
| KernelScheduling.BoundedWaiting | zephyrRS/kernel/src/proc/process.rs:420-848 | a thread at position i runs before there have been more than i selections beyond the queue jumps |
| KernelScheduling.DiesIff | zephyrRS/kernel/src/proc/process.rs:251-286 | a thread dies in a step if and only if it is running and asks to exit, or waits for a message from anyone and kernel code posts it one |
| KernelScheduling.BornIff | zephyrRS/kernel/src/proc/process.rs:44-50 | a thread is born in a step if and only if a fork or spawn creates it, with a number never used before |
| KernelScheduling.SpawnOutcome | zephyrRS/kernel/src/proc/process.rs:357-649 | what the two spawns do to the whole state: the new thread's record, its place in front of the queue, the numbers drawn, and nothing else when no user stack is found |
| KernelScheduling.ThreadLedger | zephyrRS/kernel/src/syscall.rs:277-391 | over every run a thread is alive if created and neither exited nor dropped, and then in exactly one of running slot, queue and sockets |
| KernelScheduling.NumbersAreNotReused | zephyrRS/kernel/src/proc/process.rs:44-50 | no thread number is given out twice |
| KernelSafety.CrashesIff | zephyrRS/kernel/src/syscall.rs:311-404 | a step launches context 0 if and only if the running thread blocks, wakes nobody, and nobody is queued |
| KernelSafety.CrashIsDeadlock | zephyrRS/kernel/src/syscall.rs:311-404 | then every thread there is waits in a socket |
| KernelSafety.IdleThreadPreventsCrash | zephyrRS/kernel/src/syscall.rs:311-404 | one thread that never exits and never blocks keeps the kernel from crashing in any run, whether or not it uses sockets |
| KernelTables.RunsInOwnSpace | zephyrRS/kernel/src/proc/process.rs:819-848 | in every reachable state a running user thread has its own process's live page table and no other's, and its own kernel stack |
| KernelTables.RecordAfter | zephyrRS/kernel/src/proc/process.rs:792-804 | a displacement records the active page table for the thread; no other step changes the record |
| KernelTables.ResumesUnderRecord | zephyrRS/kernel/src/proc/process.rs:792-848 | a thread that gets the CPU, displaced or woken from a socket, runs under the table last recorded for it, or under the one already active if none is |
| KernelTables.InUseIff | zephyrRS/kernel/src/proc/process.rs:251-259 | a page table is in use if and only if, since an earlier state, it was in use and the last thread of its process has neither exited nor been dropped, or was given to a new process and not freed after that |
| KernelTables.DeathSwitches | zephyrRS/kernel/src/proc/process.rs:251-259 | when a thread dies the active page table stays, unless it is freed with the process; then the kernel's is active |
| KernelTables.SelectionHasRecord | zephyrRS/kernel/src/proc/process.rs:792-848 | every thread that gets the CPU has a last record, so the next two cover every selection |
| KernelTables.ResumesSafelyIff | zephyrRS/kernel/src/proc/process.rs:792-848 | for every selection, the table is live if and only if the one last recorded is the kernel's or has, by the frees and creations since, not been freed |
| KernelTables.FirstRunSafelyIff | zephyrRS/kernel/src/proc/process.rs:792-848 | the same for a thread that has no recorded table and runs under the one already active |
| KernelWitnesses.StaleTableReached | zephyrRS/kernel/src/proc/process.rs:792-848 | a run from boot to a kernel thread running under a freed page table |
| KernelWitnesses.StaleListenerReached | zephyrRS/kernel/src/dev/vga_buffer.rs:308-325 | a run from boot to a kernel thread that waited in the keyboard socket and is resumed by a key press under a freed page table |
| KernelWitnesses.CrashReached | zephyrRS/kernel/src/syscall.rs:294-314 | a run from boot to a launch of context 0 |
| KernelWitnesses.PostDropsThread | zephyrRS/kernel/src/main.rs:38-48 | a run from boot in which a kernel thread starts a program, is preempted, and its post of the program's number destroys the program |
| KernelWitnesses.RequestOrphaned | zephyrRS/kernel/src/sync.rs:65-171 | a run from boot to a state in every continuation of which a requester waits for a thread that has exited |
| UserApi.SendUnpacks | zephyrRS/api/src/syscall.rs:133-163 | the kernel decodes a send as packed, for every socket number |
| UserApi.ReceiveUnpacks | zephyrRS/api/src/syscall.rs:103-128 | the kernel decodes a receive as packed |
| UserApi.RequestUnpacks | zephyrRS/api/src/syscall.rs:167-208 | the kernel decodes a request as packed, for every socket number |
| UserApi.ResultFits | zephyrRS/kernel/src/sync.rs:53-179 | the one result of a call suits it, and a message or a success goes with a delivery, during the call, by the socket called |
| UserApi.ReceiveReturns | zephyrRS/api/src/syscall.rs:103-128 | receive returns exactly the message written for the thread during the call, or the error |
| UserApi.SendReturns | zephyrRS/api/src/syscall.rs:133-163 | send succeeds exactly if the result written during the call is success |
| UserApi.RequestReturns | zephyrRS/api/src/syscall.rs:167-208 | send_receive returns exactly the reply written for the thread during the call, or the error |
| UserApi.ReceivedWasSent | zephyrRS/api/src/syscall.rs:103-128 | a message that receive returns was delivered during the call by the socket the process's table has for the handle, which had accepted it |
| UserApi.ReplyIsFromPartner | zephyrRS/api/src/syscall.rs:164-208 | the reply send_receive returns was sent, during the call, by a thread that had got the request during the call from the socket the process's table has for the handle |
| UserApi.SentWasReceived | zephyrRS/api/src/syscall.rs:133-163 | a send that succeeds has had its message delivered during the call by the socket the process's table has for the handle |
| UserThreads.CallNumbers | zephyrRS/kernel/src/syscall.rs:197-206 | which call each low byte of the call word selects |
| UserThreads.OtherCallsIdle | zephyrRS/kernel/src/syscall.rs:197-206 | writes and unknown calls change nothing |
| UserThreads.SpawnReturns | zephyrRS/api/src/syscall.rs:43-82 | thread_spawn returns the number of a new thread of the same process, or error 9 with nothing changed |
| UserThreads.SpawnsDiffer | zephyrRS/api/src/syscall.rs:43-82 | no two spawns of a run return the same number, below 2^64 |
| UserThreads.SpawnedStarts | zephyrRS/api/src/syscall.rs:43-82 | a spawned thread starts with the spawner's registers, its own stack pointer and a zero number |
| UserThreads.ExitEnds | zephyrRS/api/src/syscall.rs:87-96 | thread_exit ends the thread |
| UserThreads.YieldReturns | zephyrRS/api/src/syscall.rs:247-260 | thread_yield lets the front of the queue run and returns with the registers it was called with |
| UserThreads.KeyReaches | zephyrRS/kernel/src/boot/interrupts.rs:436-466 | a thread that waits for a key runs next, with that key as its message |
| Alignment.AlignUpExact | zephyrRS/kernel/src/mem/allocator.rs:66-68 | masking gives the least multiple not below the address unless the sum wraps around, and then 0 |
| Alignment.AlignUpSafeIff | zephyrRS/kernel/src/mem/allocator.rs:66-68 | the result is not below the address if and only if the sum does not wrap around |
| Bump.BumpAllocator.Init | zephyrRS/kernel/src/mem/allocator/bump.rs:25-29 | bounds with a saturating end |
| Bump.BumpAllocator.Allocate | zephyrRS/kernel/src/mem/allocator/bump.rs:35-55 | the heap after an allocation, and its result |
| Bump.BumpAllocator.Deallocate | zephyrRS/kernel/src/mem/allocator/bump.rs:58-67 | the heap after a release, with the reset when nothing is live |
| Bump.AllocSafeIff | zephyrRS/kernel/src/mem/allocator/bump.rs:35-55 | an allocation keeps the heap safe if and only if rounding does not wrap around with a size that fits below the heap's end |
| Bump.WrapHandsOutZero | zephyrRS/kernel/src/mem/allocator/bump.rs:35-55 | a heap for which address 0 is handed out |
| Bump.BumpRunSafeIff | zephyrRS/kernel/src/mem/allocator/bump.rs:35-67 | over every run live blocks stay disjoint, aligned and in the heap, and the count is their number, if and only if no allocation wraps around like that |
| Bump.LowRunSafe | zephyrRS/kernel/src/mem/allocator/bump.rs:35-67 | in the lower half of the address space every run is safe |
| Bump.RefusesIff | zephyrRS/kernel/src/mem/allocator/bump.rs:47-55 | an allocation gets the least aligned address at or after the next free one, and is refused if and only if that leaves too little room |
| Bump.RestartsWhenEmpty | zephyrRS/kernel/src/mem/allocator/bump.rs:58-67 | after the last release an allocation starts from the start of the heap; before that, releases give nothing back |
| LinkedListHeap.LinkedListAllocator.AddFreeBlock | zephyrRS/kernel/src/mem/allocator/linked_list.rs:46-56 | replaces the list by the block, or fails its assertions |
| LinkedListHeap.FirstFit | zephyrRS/kernel/src/mem/allocator/linked_list.rs:59-78 | the first block that fits; none before it does |
| LinkedListHeap.LinkedListAllocator.FindSuitableBlock | zephyrRS/kernel/src/mem/allocator/linked_list.rs:59-78 | the loop takes out the first block that fits, or leaves the list alone |
| LinkedListHeap.LinkedListAllocator.Allocate | zephyrRS/kernel/src/mem/allocator/linked_list.rs:112-126 | the list and answer of an allocation, panics included |
| LinkedListHeap.LinkedListAllocator.Deallocate | zephyrRS/kernel/src/mem/allocator/linked_list.rs:128-131 | the list after a release, or a failed assertion |
| LinkedListHeap.AdjustedSize | zephyrRS/kernel/src/mem/allocator/linked_list.rs:100-107 | adjusted sizes hold a node and the request and are whole node alignments |
| LinkedListHeap.AllocOutcome | zephyrRS/kernel/src/mem/allocator/linked_list.rs:81-126 | a panic if and only if the layout cannot be widened, a pointer if and only if the free block fits, and then exactly the rest of the block stays free; otherwise nothing changes |
| LinkedListHeap.FitsIff | zephyrRS/kernel/src/mem/allocator/linked_list.rs:81-98 | a block fits if and only if, from the least aligned address in it, the adjusted size ends at its end or leaves room for a node |
| LinkedListHeap.ListRunSafeIff | zephyrRS/kernel/src/mem/allocator/linked_list.rs:46-131 | over every run free and live blocks stay disjoint, aligned and in the heap, with at most one free, if and only if no allocation wraps around with a size that fits |
| LinkedListHeap.AllocSafeIff | zephyrRS/kernel/src/mem/allocator/linked_list.rs:81-126 | an allocation keeps the heap safe if and only if rounding does not wrap around with a size that fits below the block's end |
| LinkedListHeap.LowRunSafe | zephyrRS/kernel/src/mem/allocator/linked_list.rs:46-131 | in the lower half of the address space every run is safe |
| LinkedListHeap.WrapHandsOutZero | zephyrRS/kernel/src/mem/allocator/linked_list.rs:81-126 | a heap for which address 0 is handed out |
| LinkedListHeap.PanicsIff | zephyrRS/kernel/src/mem/allocator/linked_list.rs:46-131 | in a safe state an allocation panics if and only if the layout cannot be widened, and a release never does |
| LinkedListHeap.ReleaseConservesIff | zephyrRS/kernel/src/mem/allocator/linked_list.rs:46-56 | a release gives its bytes back if and only if nothing was free |
| LinkedListHeap.AllocConservesIff | zephyrRS/kernel/src/mem/allocator/linked_list.rs:81-126 | an allocation takes only its own bytes if and only if the free block was aligned for it |
| LinkedListHeap.BytesAreLost | zephyrRS/kernel/src/mem/allocator/linked_list.rs:46-131 | a run that loses 4080 of 4096 bytes |
| FixedBlocks.FindBlockIndex | zephyrRS/kernel/src/mem/allocator/fixed_size_block.rs:47-50 | the smallest class large enough for size and alignment |
| FixedBlocks.FixedSizeBlockAllocator.Allocate | zephyrRS/kernel/src/mem/allocator/fixed_size_block.rs:55-74 | pops the class's list or hands out the fallback heap's answer |
| FixedBlocks.FixedSizeBlockAllocator.Deallocate | zephyrRS/kernel/src/mem/allocator/fixed_size_block.rs:77-100 | pushes onto the class's list, or passes the release on to the fallback heap |
| FixedBlocks.ClassAligned | zephyrRS/kernel/src/mem/allocator/fixed_size_block.rs:47-74 | a block of the layout's class is aligned for the layout |
| FixedBlocks.ReleasedComesBack | zephyrRS/kernel/src/mem/allocator/fixed_size_block.rs:55-100 | a released block is the next one handed out to its class, and then the lists are as before |
| FixedBlocks.FixedRunPartitioned | zephyrRS/kernel/src/mem/allocator/fixed_size_block.rs:47-100 | over every run the blocks taken from the fallback heap are exactly the live ones and the free ones, each once and in its own class |
| FixedBlocks.FixedRunSafe | zephyrRS/kernel/src/mem/allocator/fixed_size_block.rs:47-100 | over every run allocations are aligned and large enough, and live and free blocks are pairwise disjoint |

## Left out

- Page-table set-up through the paging library (`map_to`, `unmap`, on-demand pages, the initial heap mapping) and page faults: library code.
- Loading of ELF programs, and what a failed spawn leaks: file formats and raw writes.
- The first registers of spawned threads, and the push and pop order of the assembly stubs: hardware effects.
- The alignment the CPU gives the stack pointer on an interrupt: contexts are taken to lie 160 bytes below the kernel stack's end, or 1184 bytes for system calls.
- Dropping a kernel thread's process, which frees page tables at address 0, and a thread's stack, which is freed by address in whatever page table is active: the transition system keeps no stack entries.
- Sockets dropped with their last handle, handle transfer between processes, and `reset`: the set of sockets only grows.
- Spin locks: steps are atomic.
- Wrap-around of the thread counter after 2^64 threads: the counter is unbounded.
- `send_and_wait_for_receive`: a bounded retry loop around a request.
- The fallback heap of the fixed-size-block heap: it is assumed to grant aligned blocks that do not overlap.
- User writes into freed blocks: list nodes are values of the model, not bytes of the heap.
- Huge-page bits in level-4 entries, which hardware reserves: they end a walk as at other levels.
- Console, keyboard decoding, timing, and the shell: device and user interface code.
- Bump.BumpAllocator.Deallocate: requires a live block, since a release without one is outside the allocator interface.
- KernelObject.Kernel.ForkCurrentThread: the user stack it finds is a parameter, because page tables are a separate model; `UserStacks.AllocateStack` says when one is found.
- KernelObject.Kernel.SpawnUserThread: page table and user stack are parameters for the same reason; `SpaceLife.LiveAndDie` states their part.
- KernelObject.Kernel.ExitCurrentThread: does not release the thread's user stack, because page tables are a separate model; `UserStacks.FreeStack` states that part.
- KernelObject.Kernel.DropThread: does not release the thread's user stack either, for the same reason.
- KernelObject.Kernel.DropProcess: removes the page table from those in use and does not name the frames released; `AddressSpaces.TeardownExact` does.
- SpaceBalance.LifecycleRestoresUsage: takes what happens between creation and teardown as given; `SpaceLife.LiveAndDie` proves it for stack allocations and frees.
