# Yalnix kernel: frames, copy-on-write, blocking and scheduling

Yalnix is a small teaching kernel. This project models the parts of it whose correctness depends on
whole runs, and proves what they are for:

* **Memory.** Page frames with a reference count each, a free list whose links live inside the free
  frames and are reached through movable windows, one page table per process, copy-on-write sharing on
  fork, and the operations that change all of it: stores with their faults, Brk, the kernel's own
  break, fork, thread creation, exec, context switch and exit. The main result is
  `Refinement.CopyOnWriteRefinesEagerCopy`: over every run without threads the processes see exactly
  what they would see on a machine whose fork copies the whole address space. Under it lie an exact
  conservation law for the counts, isolation between processes, and what a heap holds since the last exec.
* **Blocking.** Wait queues, mutexes, condition variables and terminals as steps over a kernel that
  gives up the processor only in `schedule()`: mutual exclusion, no lost wake-up, atomic release and
  sleep, every queue in order of arrival, terminal output that never mixes messages, lines that are read
  in order and whole, over all interleavings.
* **Scheduling and program start.** The round-robin search over the ring of descriptors, how long delays,
  blocking and exit keep a process off the processor, and the argument stack that a new program starts on.

Each part has a layer of values and functions on which the laws are proved, and classes and methods
with loops, arrays and linked nodes, in the form of the C code, that are proved to do what the functions
say. The calls of the kernel are methods of `Kernel.Kernel`, `BlockingCalls.BlockingKernel` and
`ProcessList.Scheduler`; their `View()` is the value that the laws are about.

| files | what they hold |
|---|---|
| `Hardware`, `EntryBits` | constants of the machine, the page table entry and its bits |
| `Ring` | the circular lists of core/list.h on linked nodes |
| `FrameList`, `PhysicalMemory` | frames, counts and free list; as a value, and edited in place |
| `AddressSpace`, `UserSpace`, `Exec`, `Fork` | what is done to one page table and the frames under it |
| `KernelState`, `KernelSteps`, `HeapSteps`, `ProcessSteps` | the kernel as a whole, its invariant, its steps |
| `CountRange`, `KernelRuns`, `Refinement`, `RunProperties`, `HeapRuns`, `MemoryResults`, `LostFrames` | runs: what all of them keep, what they mean, what heaps are, what each event does, and the runs that lose frames |
| `PageTables`, `Kernel`, `Boot` | the same in place, and the boot that establishes the invariant |
| `WaitQueues`, `Blocking`, `BlockingInv`, `TerminalInv`, `BlockingRuns`, `QueueOrder`, `CallResults` | blocking calls as values, their invariant, runs, order of arrival, and what a call does for its caller |
| `WaitQueueList`, `BlockingCalls` | the same in place |
| `Scheduling`, `ProcessList` | the scheduler as a value with its runs, and in place |
| `ArgumentStack` | the stack of a new program |

## What the proofs found

Where the code does not keep what it is meant to keep, the model follows the code and a lemma says
exactly when it does:

* `fork` and thread creation add to counts that are signed chars: from a state with counts up to 127, which
  every run keeps, they keep the invariant if and only if no count goes above 127
  (`ProcessSteps.SpawnKeepsInvIff`, `RunProperties.SpawnAfterRunIff`). A program with memory enough reaches
  such a fork by at most 127 others (`LostFrames.ForkCanOverflow`).
* A Brk that grows over entries that are still mapped, such as pages that the stack once reached, loses
  their frames: whether it succeeds or fails, the invariant is kept if and only if every entry that it gets
  to map was invalid (`HeapSteps.BrkKeepsInvIff`, and `LostFrames.BrkCanLoseAFrame` for a run).
* A failed Brk leaves its pages above the break, and Brk does not unmap what the stack left. After a call
  the heap holds exactly the pages below the break if and only if nothing was valid between the higher
  break and the stack, and a call that ran out of frames had not got one (`HeapSteps.BrkIsExactIff`). Over
  runs the heap is exact up to the deepest stack so far (`HeapRuns.HeapIsExactSinceExec`).
* The kernel's own break loses pages in the same way: the invariant is kept if and only if the frames
  suffice or there is none at all (`HeapSteps.KernelBrkKeepsInvIff`).
* The stack branch of the memory trap does not look at the entry: it loses a frame if and only if the entry
  is valid and not copy-on-write (`KernelSteps.TrapKeepsInvIff`, and `LostFrames.TrapCanLoseAFrame` for a run).
* `initFrameList`, on a memory that reaches beyond the kernel stack and with the break below it, builds a
  well-formed list if and only if the break and the memory size are page-aligned, there are at least two
  free pages below the kernel stack and memory ends above it (`Boot.FrameListIff`).
* `mutexRelease` does not ask who calls it: it keeps exclusion if and only if the mutex was free or the
  caller owns it (`BlockingRuns.ReleaseKeepsExclusiveIff`, and `StrangerBreaksExclusion` for a run that breaks it).
* A process that finds a terminal busy when it writes is never woken again, in any run
  (`BlockingRuns.BlockedWriterNeverWakes`), so there is a run on which the whole message comes out and the
  writer returns if and only if the terminal is free at the call (`BlockingRuns.WriteGetsThroughIff`, and
  `SecondWriterIsLost` for a run that loses a writer).
* `spliceLinkedLists` appends a list if and only if it has at most one member (`Ring.SpliceLinkedLists`).

## What is assumed

* Functions that end without a return statement return success; malloc succeeds, and the kernel's heap
  grows by an event of its own (`DoKernelBrk`).
* In a run, fork and thread creation find the frames that they need, because `copyParentStack` does not check,
  and a store finds one where the trap would halt the machine; Brk and exec may run out. A Brk and a fault
  of a run do not lose frames in the ways above, which the code does not check either. A store is to an
  address of region 1; a fault that neither branch of the trap repairs leaves everything as it is.
* Exec that runs out of frames, its old program gone, returns KILL. The trap handler stores that in the
  caller's register 0 and the process goes on with the pages that were mapped; so does the model.
* Somebody else, the idle process if nobody, can run when a process blocks or exits.
* An address of a descriptor is the process identifier, 0 for null; words are 4 bytes, as the makefile
  builds for 32 bits; a frame is a sequence of words, and what the loader puts into the pages of a program
  is a parameter.

## Model

| member | source | states |
|---|---|---|
| Hardware.PageBoundaries | include/hardware.h:189-190 | an address lies from DOWN_TO_PAGE to less than a page above it, and from more than a page below UP_TO_PAGE up to it, both on page boundaries |
| EntryBits.OptionsRoundTrip | memory/memory.c:49-58 | packing options into an entry and putting them together again gives them back with the valid bit set; the frame number survives exactly when it fits 24 bits |
| EntryBits.ReadIsInjective | memory/memory.h:35-68 | the flags and frame number that the model reads from the bit fields determine the entry |
| EntryBits.RewritingIsRight | process/process.c:84-91 | bit by bit, the rewritings of fork, of the trap and of the stack copy are the ones that the model makes on flags |
| EntryBits.ConstantsAreRight | memory/memory.c:83-86 | the trap's test is the copy-on-write flag, and the option constants are readable and writable data, readable and executable text, and nothing |
| Ring.ListIsEmpty | core/list.h:67-69 | tells whether a head has members |
| Ring.InsertNode | core/list.h:72-77 | behind any member of a ring, the result is the ring with the node there |
| Ring.RemoveNode | core/list.h:80-83 | the result is the ring without the node, in both directions; a node that is alone stays as it is |
| Ring.SpliceLinkedLists | core/list.h:86-93 | the members of the second list follow those of the first exactly when there is at most one of them; the second head keeps its links |
| Ring.AddFirstNode | core/list.h:103-105 | the node comes first behind the head |
| Ring.AddLastNode | core/list.h:108-110 | the node comes last |
| Ring.RemoveFirstNode | core/list.h:113-117 | hands out the first member and leaves the others |
| Ring.RemoveLastNode | core/list.h:120-124 | hands out the last member and leaves the others |
| FrameList.AllocKeepsWellFormed | memory/memory.c:149-184 | allocation keeps links, ends and counts consistent (prev inverse to next, members exactly the frames with count 0, none twice) and no frame in use changes |
| FrameList.ReleaseKeepsWellFormed | memory/memory.c:193-225 | so does freeing, and a frame that is still shared stays off the list |
| FrameList.ReleaseThenAlloc | memory/memory.c:149-225 | freeing a frame with count 1 and allocating returns that frame and restores list, counts and all other frames |
| PhysicalMemory.Memory.AllocatePageFrame | memory/memory.c:149-184 | edited through two windows: the address of the first frame of the list, 0 when there is none, and 0 in no other case as long as frame 0 is not listed; the memory is then what the function on values says; mappings other than the windows stay |
| PhysicalMemory.Memory.FreePageFrame | memory/memory.c:193-225 | likewise: one reference less, and the last one puts the frame in front of the list |
| AddressSpace.TrapIsLocal | memory/memory.c:77-130 | a fault changes each count by what it changes in the references of the own table, and frames that others hold keep contents |
| AddressSpace.TrapKeepsContents | memory/memory.c:83-113 | no frame in use changes; the page shows the same contents before and after, a copy-on-write entry ends writable on a frame with count 1 |
| AddressSpace.GrowTakesTheFront | memory/brk.c:34-57 | growing maps the first frames of the free list in order, and on failure exactly those that were left |
| AddressSpace.GrowIsLocal | memory/brk.c:34-57 | growing keeps the balance of counts and references, also when the frames run out, if the entries that it gets to map were invalid |
| AddressSpace.ShrinkIsLocal | memory/brk.c:67-89 | so does shrinking |
| AddressSpace.GrowThenShrink | memory/brk.c:34-89 | growing by n pages and shrinking back restores the table and the counts, with the n frames in reverse order in front of the free list |
| AddressSpace.FreeIsLocal | process/process.c:50-62 | freeing an address space gives back exactly the references that the table held |
| PageTables.HandleMemoryTrap | memory/memory.c:77-130 | the trap in place on one table: halts exactly when a frame is needed and none is left, otherwise does what the function on values says |
| PageTables.IncreaseBrk | memory/brk.c:34-57 | the loop that maps new pages, failure in the middle included, computes the function whose laws are above |
| PageTables.DecreaseBrk | memory/brk.c:67-89 | the loop that unmaps pages likewise |
| PageTables.IncreaseKernelBrk | memory/memory.c:242-265 | the same loop on the kernel page table, which also holds the windows and the stack |
| PageTables.DecreaseKernelBrk | memory/memory.c:275-293 | likewise for unmapping |
| PageTables.FreeAddressSpace | process/process.c:50-62 | the loop frees every valid entry and clears the table |
| PageTables.ClearPageTable | memory/memory.c:63-65 | every entry is cleared |
| PageTables.CopyParentStack | process/fork.c:42-55 | the loop that gives the child frames of its own for the stack pages, copied through a window |
| PageTables.SetCopyOnWrite | process/process.c:71-95 | below the stack page writable entries become copy-on-write; for the child each valid entry adds a reference, as a signed char |
| PageTables.IncreaseFrcEntries | process/fork.c:77-84 | one reference more for each valid entry below the stack page |
| PageTables.NewKernelStack | process/process.c:117-131 | takes the first two free frames and writes the process's name into the first |
| PageTables.CopyInfo | process/fork.c:88-101 | the child's info holds its own name and the parent's heap limits |
| PageTables.CloneKernelStack | process/switch.c:36-59 | the child's stack is a copy of the parent's except for its own info |
| PageTables.SpawnFrames | process/fork.c:110-146 | all frame work of fork and thread creation together: stack frames, page table, counts and marks of both tables |
| PageTables.MapProgram | process/load.c:184-198 | the three loops that map text, data and stack, with failure in any of them |
| PageTables.FillPages | process/load.c:208-254 | every mapped page gets what the loader puts there |
| PageTables.ProtectText | process/load.c:228-234 | text pages lose the write permission and get the execute permission |
| UserSpace.StoreIsSeen | memory/memory.c:77-113 | a user store with its fault does to the writer's view what a store to private memory does |
| UserSpace.GrowIsSeen | memory/brk.c:34-57 | growing adds writable pages to the view and changes nothing else |
| UserSpace.ShrinkIsSeen | memory/brk.c:67-89 | shrinking removes pages from the view and changes nothing else |
| UserSpace.OthersSeeNoChange | memory/memory.c:88-103 | an operation that balances counts and references on one table leaves every other table's view as it was |
| Fork.ShareAddsRefs | process/process.c:86-89 | the counting loop adds the table's references to a frame's count, wrapped to a signed char |
| Fork.CopyStackCopies | process/fork.c:42-55 | the copied stack pages sit in fresh frames with count 1 and hold the parent's contents; other entries are the parent's |
| Fork.SpawnIsRight | process/fork.c:110-146 | after spawning each count has grown by the child's references, the child's stack names it, and its pages hold the parent's contents |
| Exec.LoadIsSeen | process/load.c:167-254 | loading succeeds exactly when the frames suffice, and keeps the balance of counts either way; then the process has the program: text readable and executable, data and stack writable, nothing else mapped; or, on failure, some pages of its segments and nothing else |
| KernelState.CurrentIsMapped | process/process.h:192-193 | who is current, read from the bottom of the mapped stack, is the process whose table the machine uses |
| KernelState.StacksDisjoint | process/process.c:117-131 | kernel stack frames of running processes are disjoint from each other's, from user pages and from the kernel's pages |
| KernelState.LocalKeepsInv | memory/memory.c:77-130 | whatever balances counts and references on one running process's table keeps the whole invariant |
| KernelState.LocalLeavesOthers | memory/memory.c:77-130 | and leaves what the other processes see, and that they are sole writers |
| KernelSteps.StoreKeepsInv | memory/memory.c:77-130 | a store with its fault keeps the invariant and sole writers, and changes the writer's view as on private memory |
| KernelSteps.AnyStoreKeepsInv | memory/memory.c:77-130 | stores keep the invariant also when threads share writable frames |
| KernelSteps.TrapKeepsInvIff | memory/memory.c:118-127 | a trap keeps the invariant if and only if it does not grow the stack onto a valid entry that is not copy-on-write |
| HeapSteps.BrkGrowKeepsInv | memory/brk.c:96-123 | growing over invalid entries keeps the invariant and the heap limits; it succeeds exactly when the frames suffice, and the break is then the rounded address, below the stack page; otherwise the break stays |
| HeapSteps.BrkKeepsInvIff | memory/brk.c:34-123 | any Brk, refused, served, shrinking or out of frames, keeps the invariant if and only if the entries that it gets to map were invalid |
| HeapSteps.BrkIsExactIff | memory/brk.c:34-123 | after any Brk the entries from heap start to the stack page are valid exactly below the new break, if and only if none was valid between the higher of both breaks and the stack, and no call that ran out of frames had got one |
| HeapSteps.BrkSucceedsIff | memory/brk.c:96-123 | for every address and any number of free frames Brk returns 0 if and only if the rounded address lies below the stack page, its page is not below heap start and the pages beyond the break are at most the free frames, and -1 otherwise; the break moves exactly with 0, and a refused call or one for the break that stands changes nothing |
| HeapSteps.BrkShrinkKeepsInv | memory/brk.c:67-123 | shrinking always succeeds and keeps the invariant and the heap limits |
| HeapSteps.BrkIsSeen | memory/brk.c:96-123 | in terms of the view: pages are added, removed, or nothing happens, and sole writers stay |
| HeapSteps.KernelBrkKeepsInv | memory/memory.c:302-333 | moving the kernel's break keeps the invariant and every process's view, succeeds exactly below the windows and with frames enough, and changes nothing when there is none |
| HeapSteps.KernelBrkKeepsInvIff | memory/memory.c:242-333 | it keeps the invariant if and only if the frames suffice, or it is refused, or there is not one frame |
| ProcessSteps.SwitchIsRight | process/switch.c:68-86 | after a switch the target is current, the caller's context is saved, and nothing else has changed |
| ProcessSteps.DropSpaceKeepsInv | process/process.c:50-62 | dropping the current address space keeps the invariant and the other views |
| ProcessSteps.UnloadedIsRight | process/load.c:172-178 | before the new program is mapped the old one is gone and the heap limits are the new ones |
| ProcessSteps.ExecIsRight | process/load.c:147-254 | exec leaves the process with the new program when the frames suffice and with unfilled pages of it when they do not; the heap limits are the new ones, everybody else sees what they saw, and the invariant is kept, in both cases |
| ProcessSteps.MarkingIsInvisible | process/process.c:71-95 | marking entries copy-on-write changes no count and no view, and leaves nothing below the stack page writable |
| ProcessSteps.SpawnKeepsInv | process/fork.c:110-187 | fork and thread creation keep the invariant; the child is new, listed and running |
| ProcessSteps.SpawnKeepsInvIff | memory/memory.h:57 | given the frames, the invariant is kept if and only if no count goes above 127 |
| ProcessSteps.ForkCopiesTheView | process/fork.c:110-146 | after fork the child sees what the parent sees, nobody's view has changed, and writers are still sole |
| ProcessSteps.ForkReturnsPid | process/fork.c:141-145 | in the parent fork returns the child's pid, and the child's context is saved |
| ProcessSteps.ForkReturnsZero | process/fork.c:141-145 | when the child is switched to, now or later, the same code returns 0 |
| ProcessSteps.ExitIsRight | process/kill.c:35-83 | exit of a process without children and threads gives back its pages and its stack, switches, changes nobody's view, and forgets the descriptor exactly when the parent is process 1 |
| ProcessSteps.ForgetKeepsInv | process/kill.c:103-123 | removing a zombie touches no frame, takes it out of the list with the others in order, and keeps the invariant |
| KernelRuns.StepKeepsGood | process/fork.c:110-187 | every event of a run keeps the invariant, the heap limits, and counts that a signed char holds |
| Refinement.StepRefines | process/process.c:71-95 | one event of the kernel is one deed of the machine that copies eagerly |
| Refinement.CopyOnWriteRefinesEagerCopy | process/process.c:71-95 | over every run without threads the views of all processes are those of the machine whose fork copies everything, and writers stay sole |
| Refinement.OthersNeverShow | memory/memory.c:77-113 | over every such run a process that does not change its memory itself sees no change, whatever the others do |
| RunProperties.CountsAreConserved | memory/memory.c:137-225 | after every run each count is the number of valid user entries, kernel-stack uses and kernel mappings and lies between 0 and 127, and a frame is on the free list, once, exactly when there are none |
| RunProperties.SpawnAfterRunIff | process/process.c:86-89 | in every state that a run reaches fork and thread creation keep the invariant if and only if no count of a page below the stack passes 127 |
| RunProperties.WritableIsUnshared | memory/memory.c:83-113 | after every run without threads a page that is writable somewhere has count 1, no other mapping and no copy-on-write mark |
| RunProperties.TextStaysProtected | process/load.c:228-234 | after every run text is neither writable nor copy-on-write, and write and copy-on-write never stand together |
| RunProperties.StacksStayApart | process/switch.c:68-86 | after every run the mapped stack names the current process and stack frames are disjoint |
| HeapRuns.StepStaysExact | memory/brk.c:96-123 | a heap that is exact up to a page below its stack stays so over every event of its process or of another, except for a Brk of its own that runs out of frames, and exec |
| HeapRuns.ChildHasParentsHeap | process/fork.c:88-146 | a child starts with a heap as exact as its parent's, and with the same stack page |
| HeapRuns.HeapIsExactSinceExec | memory/brk.c:96-123 | over every run since its exec, as long as its growing breaks got their frames, a process has from heap start to the deepest page its stack pointer has been in exactly the pages below its break |
| MemoryResults.FaultGrowsStackIff | memory/memory.c:118-127 | with a free frame a fault on an entry that is not valid makes it valid if and only if its address is not in a page below that of the stack pointer; no other entry changes |
| MemoryResults.StoreIsRight | memory/memory.c:77-130 | after a store, threads or not, a page that the process may write holds the value at the word of the address and nowhere else; an absent page appears with the value exactly when it is not below the stack pointer's page; otherwise the page is as before, and without threads so are all others |
| MemoryResults.SharersSeeStores | process/fork.c:156-187 | whoever maps the frame of a writable entry, as threads do, sees the word that was stored there |
| MemoryResults.SpawnSharesBelowStack | process/fork.c:42-146 | valid pages that end at or below the stack pointer are shared frame by frame, by fork guarded against writes and by thread creation with the rights that they had; the stack pointer's page and those above it are copies of the child's own with the same contents and rights |
| MemoryResults.SpawnedDescriptors | process/fork.c:110-187 | the child has the parent's stack pointer and saved context; it is the parent's child and last in the ring, or a thread of its leader and right behind it; nobody else changes |
| MemoryResults.StepIsRight | process/switch.c:68-86 | each event of a run has the effect of its call on descriptors, breaks, the caller's memory and who is current |
| LostFrames.BrkCanLoseAFrame | memory/brk.c:34-57 | a run of three events, the stack pointer down to the break, a store, and up again, after which the next page that Brk maps breaks conservation |
| LostFrames.TrapCanLoseAFrame | memory/memory.c:118-127 | with the stack pointer below a valid page that is not writable, a fault there breaks conservation |
| LostFrames.ForkCanOverflow | process/process.c:86-89 | a run of fewer than n forks, where n and the count of a shared page make 128, after which one more fork breaks conservation |
| LostFrames.FirstProgramCanLoseFrames | process/load.c:147-254 | the first program after boot can do all three, if it has text, two pages between data and stack, and memory enough |
| Kernel.Kernel.GetCurrentProcess | process/process.h:192-193 | reading through the mapped stack gives the process whose table the machine uses |
| Kernel.Kernel.HandleTrap | memory/memory.c:77-130 | the trap on the current process takes the kernel to the state of the step on values, which MemoryResults.FaultGrowsStackIff pins down |
| Kernel.Kernel.UserStore | memory/memory.c:77-130 | a store, its fault and the second try likewise, also where the fault loses a frame |
| Kernel.Kernel.SetProcessBrk | memory/brk.c:96-123 | both branches, both failures, the new break and the result are those of the step on values, which HeapSteps.BrkSucceedsIff pins down |
| Kernel.Kernel.SetKernelBrk | memory/memory.c:302-333 | likewise for the kernel's break |
| Kernel.Kernel.SwitchKernelContext | process/switch.c:68-86 | does nothing unless the caller is current; otherwise saves its context and maps the target's stack |
| Kernel.Kernel.ForkProcess | process/fork.c:110-146 | refused for threads; otherwise the state is that of the step and the parent gets the child's pid |
| Kernel.Kernel.CreateThread | process/fork.c:156-187 | likewise for threads, listed behind their leader |
| Kernel.Kernel.LoadProgram | process/load.c:42-254 | refused for threads and for layouts without a free page before the stack, changing nothing; otherwise the state is that of the step, and the status is KILL exactly when the frames did not suffice |
| Kernel.Kernel.KillCurrentProcess | process/kill.c:35-83 | the state is that of the step: address space, switch, stack frames, zombie or gone |
| Kernel.Kernel.FreeStack | process/switch.c:95-111 | the stack frames of the process that was left go back to the free list |
| Kernel.Kernel.ReleaseProcess | process/kill.c:103-123 | the descriptor leaves the ring and the kernel's heap |
| Boot.InitFrameList | init/init_memory.c:51-77 | which link words the loop writes into which frames, for every break and memory size |
| Boot.FrameListIff | init/init_memory.c:51-77 | on a memory that reaches beyond the kernel stack the links spell out the frames from the break up without the kernel stack, in ascending order, if and only if the limits fit |
| Boot.InitFrcTable | init/init_memory.c:126-136 | all counts are zero |
| Boot.InitKernelPageTable | init/init_memory.c:93-117 | text, data and stack entries map themselves, text to be read and executed, data and stack to be read and written, everything else is not valid, and their counts are 1 |
| Boot.BootedIsInv | init/init_memory.c:51-136 | what boot leaves satisfies the whole invariant |
| Boot.FirstExecIsGood | process/load.c:176-178 | and after the first program is loaded the heap limits are right as well: the start of every run |
| Boot.Start | init/init_memory.c:51-136 | the boot in place establishes the invariant |
| WaitQueues.ExclusiveSignal | sync/waitqueue.c:101-114 | an exclusive signal takes all leading non-exclusive nodes and the first exclusive one, no more |
| WaitQueues.BroadcastWakesAll | sync/waitqueue.c:101-114 | a signal that is not exclusive takes everybody |
| WaitQueues.EnqueueKeepsOrder | sync/waitqueue.c:56-63 | non-exclusive nodes stay before exclusive ones |
| WaitQueueList.WaitQueue.AddNode | sync/waitqueue.c:56-63 | on linked nodes: exclusive nodes to the back, others to the front |
| WaitQueueList.WaitQueue.Enlist | sync/waitqueue.c:71-81 | a new node for the sleeping process, at the place that its kind asks for |
| WaitQueueList.WaitQueue.WakeFirst | sync/waitqueue.c:106-110 | one round of a signal: the first node is unlinked and its process runs again |
| WaitQueueList.WaitQueue.Signal | sync/waitqueue.c:101-114 | exactly the nodes that the function on values takes are gone, their processes run, all other processes are as before |
| WaitQueueList.WaitQueue.HardenFront | traps/tty.c:157-162 | the leading non-exclusive nodes become exclusive, nothing else changes |
| BlockingInv.SleepKeepsInv | sync/waitqueue.c:71-85 | sleeping keeps the invariant of queues, mutexes, readers and writers |
| BlockingInv.WakeKeepsQueues | sync/waitqueue.c:101-132 | a signal keeps the queues right, wakes only sleepers of its own queue, and wakes the first of them |
| TerminalInv.CompletionWakesTransmitter | traps/tty.c:153-165 | the completion trap wakes exactly the process that issued the transmit |
| TerminalInv.WriteFinishedKeepsInv | traps/tty.c:153-165 | the completion trap keeps the invariant |
| BlockingRuns.InitialIsInv | init/init.c:180-188 | the state after boot satisfies the invariant and exclusion |
| BlockingRuns.RunKeepsInv | sync/waitqueue.c:71-132 | every state of every run, in every interleaving, satisfies the invariant |
| BlockingRuns.AsleepIffQueued | sync/waitqueue.c:71-132 | a process waits if and only if it has a node, and then one node on one queue |
| BlockingRuns.MutualExclusion | sync/mutex.c:52-85 | if only holders release, at most one process is between acquire and release, and it is the recorded owner, also when a third process takes the lock before a woken one looks again |
| BlockingRuns.ReleaseKeepsExclusiveIff | sync/mutex.c:77-85 | a release keeps exclusion if and only if the mutex is free or the caller owns it |
| BlockingRuns.StrangerBreaksExclusion | sync/mutex.c:77-85 | a run of five calls after which two processes have acquired one mutex, the second having released it for the first |
| BlockingRuns.NoLostWakeup | sync/mutex.c:61-84 | a free mutex with sleepers always has a process awake inside the acquire loop |
| BlockingRuns.ReturnsAsOwner | sync/cvar.c:52-60 | a call that resumes in mutexAcquire or cvarWait returns only with its caller as owner |
| BlockingRuns.AcquireReturnsAsOwner | sync/mutex.c:52-68 | so does a mutexAcquire that does not sleep |
| BlockingRuns.OutputNeverMixes | traps/tty.c:119-165 | in every reachable state a terminal has got whole messages and then the message of the one process that has the terminal, up to its current chunk; nobody else transmits |
| BlockingRuns.ChunksAreBounded | traps/tty.c:135-137 | each transmit carries between 1 and 1024 bytes and continues the message |
| BlockingRuns.BlockedWriterNeverWakes | traps/tty.c:128-143 | a process that sleeps for a busy terminal sleeps in the same call after every run |
| BlockingRuns.WriteGetsThroughIff | traps/tty.c:128-165 | after a call to ttyWrite there is a run at whose end the writer has returned and the terminal has got its message, if and only if the terminal was free at the call |
| BlockingRuns.SecondWriterIsLost | traps/tty.c:128-165 | a run of six steps after which a terminal is free and a process still sleeps for it |
| BlockingRuns.ReadsInOrder | traps/tty.c:51-98 | between two lines the reads hand out a prefix of the line, and unread data with sleeping readers means that a woken reader is on its way |
| QueueOrder.StepOrder | sync/waitqueue.c:56-132 | on every queue of any kind a step takes some of its exclusive sleepers from the front and adds who comes to sleep at the back, the hardened transmitter never among them |
| QueueOrder.SleepersInOrderOfArrival | sync/waitqueue.c:56-132 | over every run the exclusive sleepers of any queue are those of the start and then the arrivals, in order of arrival, without as many of the first as were woken |
| QueueOrder.SleepersAreTheLastToCome | sync/waitqueue.c:56-132 | since boot, then, a queue holds the last of all arrivals, in order |
| QueueOrder.WaiterKeepsPlace | sync/waitqueue.c:56-132 | on any queue and over every run a waiter behind k others moves up with each wake-up and by nothing else |
| QueueOrder.SignalWakesFirst | sync/waitqueue.c:101-114 | on any queue an exclusive signal wakes the first of the exclusive sleepers |
| QueueOrder.MutexWaiterKeepsPlace | sync/mutex.c:52-85 | over every run a process behind k others on a mutex moves up by one with each release of it, alone or in cvarWait, and by nothing else |
| QueueOrder.CvarWaiterKeepsPlace | sync/cvar.c:52-90 | over every run without a broadcast a waiter behind k others moves up by one with each signal, and by nothing else |
| QueueOrder.WaitQueuesAtOnce | sync/cvar.c:52-60 | when cvarWait has released the mutex its caller is on the variable's queue, last, before anybody else runs |
| QueueOrder.BroadcastWakesEverybody | sync/cvar.c:84-90 | a broadcast wakes everybody and empties the queue |
| CallResults.AcquireSleepsIff | sync/mutex.c:52-68 | mutexAcquire leaves its caller asleep if and only if somebody else has the mutex; for the owner nothing changes at all, and a free mutex becomes the caller's |
| CallResults.WokenWaitSleepsIff | sync/cvar.c:52-60 | so it is when cvarWait goes on after its wake-up; the owner is back in user mode and mutex, holders and queues are as before |
| CallResults.WokenAcquireSleepsIff | sync/mutex.c:60-67 | a process that looks at the mutex again sleeps again if and only if it is locked, at the back of the queue |
| CallResults.ReadGetsIff | traps/tty.c:51-71 | a read returns if and only if a part of the line is unread, with the next bytes, as many as it asks for or as there are, and moves the position by as many |
| CallResults.LineIsThere | traps/tty.c:80-98 | an arriving line replaces what was there, is unread from its beginning, and wakes the first sleeping reader |
| CallResults.LineIsReadWhole | traps/tty.c:51-98 | over every run from one line to the next the reads together have handed out as much of its beginning as they asked for, and all of it once they have asked for as much |
| BlockingCalls.BlockingKernel.SleepOn | sync/waitqueue.c:71-85 | the step on values, on linked queues and descriptors |
| BlockingCalls.BlockingKernel.SignalOn | sync/waitqueue.c:101-114 | likewise |
| BlockingCalls.BlockingKernel.AcquireLoop | sync/mutex.c:60-67 | one stretch of the loop of mutexAcquire, from its test to sleeping or the return |
| BlockingCalls.BlockingKernel.Acquire | sync/mutex.c:52-68 | mutexAcquire up to there; the owner returns at once, as CallResults.AcquireSleepsIff says of the step |
| BlockingCalls.BlockingKernel.Release | sync/mutex.c:77-85 | mutexRelease |
| BlockingCalls.BlockingKernel.MutexInitialize | sync/mutex.c:34-43 | a new mutex is free and nobody waits for it |
| BlockingCalls.BlockingKernel.CvarWait | sync/cvar.c:52-60 | cvarWait up to its sleep |
| BlockingCalls.BlockingKernel.CvarSignal | sync/cvar.c:69-75 | cvarSignal |
| BlockingCalls.BlockingKernel.CvarBroadcast | sync/cvar.c:84-90 | cvarBroadcast |
| BlockingCalls.BlockingKernel.TtyRead | traps/tty.c:51-71 | ttyRead from its loop on: sleeps without unread data; otherwise gets, from the position on, as many bytes as it asks for or as there are, and wakes the next reader |
| BlockingCalls.BlockingKernel.TtyReadBegin | traps/tty.c:80-98 | a line replaces the buffer and wakes a reader; other terminal numbers do nothing |
| BlockingCalls.BlockingKernel.TransmitLoop | traps/tty.c:134-144 | one stretch of the chunk loop |
| BlockingCalls.BlockingKernel.TtyWrite | traps/tty.c:127-144 | ttyWrite from its loop on |
| BlockingCalls.BlockingKernel.TtyWriteFinished | traps/tty.c:153-165 | the completion trap, loop over the queue included |
| BlockingCalls.BlockingKernel.Resume | sync/waitqueue.c:123-126 | whoever was woken goes on from where it slept |
| BlockingCalls.BlockingKernel.InitializeTerminals | init/init.c:180-188 | the terminals start without writer, buffer and sleepers |
| Scheduling.PickIsUnique | process/switch.c:120-138 | schedule() has at most one outcome |
| Scheduling.SomebodyIsPickedIff | process/switch.c:126-135 | it has one if and only if somebody in the ring is eligible |
| Scheduling.DelaySafety | process/process.c:143-156 | a process that delays itself by n > 0 is dispatched again only when at least n ticks have passed, over every run |
| Scheduling.DelayEndsExactly | process/process.c:143-156 | until it is dispatched a process that delayed itself by n is eligible exactly when n ticks have passed |
| Scheduling.TicksAreCounted | traps/traps.c:49-57 | the clock has moved by the number of clock traps, over every run |
| Scheduling.BlockSafety | sync/waitqueue.c:123-126 | over every run after it has blocked a process is not current until it is woken |
| Scheduling.WokenIsEligible | process/switch.c:126-135 | a process that was woken is eligible, until it is dispatched, exactly from its wake-up time on |
| Scheduling.ExitFindsAnotherIff | process/kill.c:42-52 | the search of an exit finds another process if and only if somebody else is eligible |
| Scheduling.ExitIsForGood | process/kill.c:77-82 | over every run after an exit the process is not dispatched again and cannot be woken |
| Scheduling.SpawnedIsEligible | process/fork.c:134-182 | a new process is eligible at once and everybody else keeps place and state; a thread behind its running parent is the next that is picked |
| Scheduling.ReapedIsGone | process/kill.c:103-123 | a released process is not in the ring any more and the others keep their order |
| Scheduling.RoundRobin | process/switch.c:120-138 | on a ring of n processes one that stays eligible is dispatched within n calls |
| Scheduling.DispatchedWithinDistance | process/switch.c:120-138 | more exactly within as many calls as there are steps to it in the ring |
| Scheduling.NobodyTwice | process/switch.c:120-138 | until then nobody is dispatched twice |
| ProcessList.Scheduler.Search | process/switch.c:122-135 | the loop over linked nodes ends when somebody is eligible and finds the first one behind the current process, skipping the head |
| ProcessList.Scheduler.Schedule | process/switch.c:120-138 | the current process is then the one picked, nothing else changes |
| ProcessList.Scheduler.TrapClock | traps/traps.c:49-57 | one tick and a call to schedule() |
| ProcessList.Scheduler.PutProcessToSleep | sync/waitqueue.c:123-126 | the process that was current waits, another one is picked, nothing else changes |
| ProcessList.Scheduler.DelayProcess | process/process.c:143-156 | 0 and negative delays return at once, with success and with an error; others set the wake-up time and call schedule() |
| ProcessList.Scheduler.AddProcess | process/fork.c:138 | the ring is the old one and the child at its end |
| ProcessList.Scheduler.AddThread | process/fork.c:181 | the ring is the old one with the thread behind the current process |
| ArgumentStack.LayoutIsRight | process/load.c:112-130 | argc is 8-aligned, the words and the room for nulls end before the strings with less than 8 bytes to spare, and the stack pages are just those that hold it all |
| ArgumentStack.StringsFillUp | process/load.c:112-112 | the strings follow each other and end exactly at the end of region 1 |
| ArgumentStack.RoomIffPageBetween | process/load.c:136-140 | a program is let in if and only if a whole unmapped page remains between data and stack |
| ArgumentStack.PlanStack | process/load.c:90-140 | the counting loop, the stack pointer, the number of stack pages and the test |
| ArgumentStack.PlanFitsExec | process/load.c:90-198 | the test lets in exactly the programs that exec can map, their text below their data; then the stack pages end at the limit and hold the new stack pointer |
| ArgumentStack.SaveArguments | process/load.c:156-165 | the kernel's copy holds all strings one behind the other |
| ArgumentStack.StrCpy | process/load.c:262-262 | copies a string with its zero and nothing more |
| ArgumentStack.CopyArgument | process/load.c:260-265 | one round: the next pointer points to a copy of the next argument |
| ArgumentStack.BuildArguments | process/load.c:251-269 | the whole list and all strings stand, the room between is zero, and nothing below has changed |
| ArgumentStack.ProgramReadsItsArguments | process/load.c:251-269 | a program that follows its stack pointer finds argc, each argument as a string, and the two null pointers |

## Left out

- Process trees: `joinThread`, reparenting, release of children and exit of a thread's leader (core/list.h:86-93 and process/kill.c:60-73 break the lists there); exit is modelled for a process without children and threads.
- Thread isolation: threads share writable frames on purpose, so the refinement is about runs without them; counts are conserved with them.
- `waitForPID`, beyond its calls to schedule() and the release of a zombie, `copyParentData`, which nobody calls, spinlocks, resource identifiers, pipes, the trap vector and tracing.
- Killing a sleeping process, delays and exits inside the blocking calls: the runs of `Blocking` have none of them, and memory, blocking and scheduling are three machines, not one.
- Registers, translation buffer flushes, the contents of a kernel context, ELF reading and file access; what the loader reads is a parameter, and a read that comes up short is not modelled.
- PageTables.CopyParentStack: asks that the frames suffice; the loop does not look, and would map frame 0.
- PageTables.NewKernelStack: asks for two free frames, for the same reason.
- PageTables.SpawnFrames: asks for the frames and that no count passes 127; beyond that the free list does not stay well-formed, and ProcessSteps.SpawnKeepsInvIff says what happens to the counts.
- Kernel.Kernel.ForkProcess: asks for the frames and the counts as SpawnFrames does.
- Kernel.Kernel.CreateThread: likewise.
- PageTables.FillPages: reading the file, zeroing and the argument bytes are one page each of a parameter; ArgumentStack has the argument bytes.
- ProcessSteps.ExecIsRight: the text does not reach into the data, where the mapping loops would map an entry twice; executable files do not have that, and the code does not check.
- Kernel.Kernel.LoadProgram: likewise for the text; the stack pointer and the number of stack pages are parameters here, with what ArgumentStack.PlanFitsExec says of them; Kernel holds pages of words and ArgumentStack bytes.
- ProcessSteps.ExitIsRight: the process has no children and no threads, and somebody else can run.
- Kernel.Kernel.KillCurrentProcess: likewise; the search for the next process is Scheduling, and its outcome a parameter here.
- Kernel.Kernel.SetKernelBrk: without the branch taken before virtual memory is on, which only moves the break.
- Kernel.Kernel.ReleaseProcess: the descriptor has no children to release.
- KernelRuns.StepKeepsGood: the events of runs do not lose frames; what the code does otherwise is in HeapSteps.BrkKeepsInvIff, HeapSteps.KernelBrkKeepsInvIff, KernelSteps.TrapKeepsInvIff, ProcessSteps.SpawnKeepsInvIff and LostFrames.
- HeapRuns.HeapIsExactSinceExec: nothing is claimed of the entries between the deepest stack so far and the stack, which the stack may have left mapped.
- BlockingCalls.BlockingKernel.TtyRead: lengths are not negative, as `memcpy` asks.
- Boot.FrameListIff: memory that ends below the end of the kernel stack, and a break above its base, are outside its precondition; the machine does not have them.
- Ring.RemoveNode: reading the links of a node after it was freed, as the signal loop does, is replaced by reading the successor first.
- BlockingRuns.OutputNeverMixes: a line or message is a sequence of any length; buffers of the kernel's heap are values.
- Scheduling.RoundRobin: on a ring that changes meanwhile nothing is claimed; Scheduling.DelaySafety is about rings that change.
