# TomatOS kernel model

A Dafny model of the parts of TomatKernel whose correctness depends on state kept over time, with
proofs about every input, every run and every reachable state.

| files | part of the kernel |
|---|---|
| `Words`, `Timers`, `Processes`, `Kernel` | process table, event queues, scheduler and timers as values: what each interrupt and syscall does |
| `KernelMachine` | the same as one object with loops over its tables, updated in place; every method is proved to do what `Kernel` says |
| `SchedulerLaws`, `HandlerLaws` | what an update and each interrupt and syscall do, said of table entries, registers and numbers alone |
| `Turns` | two runs to the tick and to the register: two busy processes, and the first steps after boot |
| `KernelInvariant`, `Delivery`, `Context`, `Fairness`, `TimerRuns` | what holds over whole runs: one process running, timers owned, events delivered once and in order, registers preserved, waiting bounded, timers firing once |
| `HeapBlocks`, `HeapProofs` | the heap as the list of its blocks: what every operation keeps, and exactly when each outcome arises |
| `HeapFailures` | runs from a fresh heap into the allocations that go wrong |
| `HeapMachine` | the heap as headers linked by address beside the bytes of the payloads, changed in place, and what is left of it when a header is written past its block |
| `PageBits`, `PageTables`, `PageRanges`, `Isolation` | the page bitmap as a set of free pages, directories as partial maps from virtual to physical pages, ranges, new and freed directories, and address spaces kept apart over whole runs |
| `ProcessSpaces` | the address space `process_create` builds: what it reaches, when it can be built, and that building it keeps all spaces apart |
| `PageRights` | which pages a process may reach and write |
| `Conservation` | the pages that creating a process takes and freeing its directory gives back |
| `PagingMachine` | the bitmap and the table entries changed in place |
| `Strings` | strlen, strrev, uitoa, itoa, memcpy and memmove on buffers |
| `GrowBuffer` | the growable array and its use as an event queue |

The model follows the code, also where the code departs from its comments and documentation. These
departures are results here, each with the exact condition where one exists:

- The score is the product `suspended_time * (priority + 1)` (core/process/process.c:421), not the sum
  of core/process/README.md:18. Nothing ever sets `suspended_time` or `running_time` back to zero.
- `process_start` returns early with `can_update` false when it reuses a dead slot
  (core/process/process.c:277-279). `StartFreezesIff` says when, `FrozenNeverSwitches` what follows, and
  `FreezeReached` gives the run from boot: two starts, a kill, one more start.
- The kill syscall returns when the caller does have permission (core/process/process.c:175); see `KillSpares` and `KillEnds`.
- The split test of the heap is unsigned (core/memory/heap.c:212): with less than a header to spare it splits too,
  and the new header runs past the block. The code still returns a pointer; the outcome is called `Corrupted`, because
  afterwards no list of blocks describes the headers (`TornDescribesNothing`; `ExactFitOverwrites` names the header lost
  at an exact fit). After the last block the header lies off the heap, where no page is mapped: a page fault, which the
  kernel answers by halting (`Faulted`, `FaultReached`). `AllocationSucceedsIff` says exactly when each happens,
  `ExactFitReached` gives runs into it, and
  `RunKeeps` shows that the test as it was meant would keep every run sound.
- `expand` grows the last block even when it is allocated, and the retry after it can go on for ever
  (core/memory/heap.c:89-94 and 265-269). So it does for a request whose 32-bit sum with the bytes used wraps, because
  then nothing grows. That outcome is called `Endless`; see `EndlessIff`, `SingleFreeTopFits`, `RetryRepeats` and the
  runs of `WrapReached` and `EndlessReached`.
- `heap_reallocate` of a block already freed can free the block it is about to return (core/memory/heap.c:317-325); see `ReallocateFreedIff` and `ResizeFreedReached`.
- A kernel panic halts: it is the outcome `Panicked` of the heap, and an operation that is not `Safe` in `Kernel`.
- `first_free` of the bitmap has 16 bits and the scan after an allocation needs another free page
  (core/memory/paging.c:15 and 29-31); see `AllocationReturnsIff`.
- Freeing a directory frees the kernel pages every directory maps (core/memory/paging.c:222-247);
  see `FreeingKeepsOtherIff`, `FreeingRuinsOthers`, `FreeUndoesCreate` and, over every run from the start of the system, `FreeingRuinsReachable`.
- `paging_map_identity` of a page already mapped onto itself frees that page (core/memory/paging.c:150-180); see `IdentitySoundIff` and `IdentityTwiceRuins`.
- `paging_map` of a kernel page lets go of a page every other directory maps (core/memory/paging.c:208-219); see `StepIsolates` and `KernelRemapRuins`.
- `process_create` maps the lowest 2 MB of the stack, but the stack pointer starts 20 MB up
  (core/process/process.c:248-261 and 344-346): the page the first push writes to is not mapped; see `FirstPushUnmapped`.
- A range that does not start on a page boundary can miss its last page (core/memory/paging.c:182-188); see `RangeCoversIff` and `RangeMissesLast`.
- In a radix above 201 a digit is stored as a zero byte (klibc/string.c:26-28); see `PrintsFaithfullyIff`.

## Model

| member | source | states |
|---|---|---|
| Timers.DueIffTenOrLess | TomatKernel/core/timer.c:32 | the wrapping test fires a timer exactly when at most ten milliseconds are left |
| Timers.IdsStayValid | TomatKernel/core/timer.c:98-122 | unfinished timers keep distinct nonzero ids over every operation until the counter wraps |
| Timers.FiresExactlyOnce | TomatKernel/core/timer.c:29-54 | over every run a timer not cancelled fires exactly once, on tick max(1, ceil(left/10)), whatever other timers do |
| Timers.StartedFiresOnce | TomatKernel/core/timer.c:98-114 | the same counted from its start, for every 32-bit duration and whichever slot it reuses |
| Timers.CancelledNeverFires | TomatKernel/core/timer.c:116-122 | a timer cancelled by its owner, by id or with id 0, never fires afterwards |
| Processes.LastRunning | TomatKernel/core/process/process.c:385-396 | the tick loop ends up holding the last RUNNING entry, or none exactly when nothing runs |
| Processes.Best | TomatKernel/core/process/process.c:411-426 | the first NORMAL entry of maximal positive score, none exactly when no score is positive |
| Processes.Pick | TomatKernel/core/process/process.c:415-426 | an unstarted NORMAL process before all others, else the first of maximal positive score, none only if no process qualifies |
| Processes.PickIs | TomatKernel/core/process/process.c:415-426 | that description fits one process only |
| SchedulerLaws.KeepsProcessorIff | TomatKernel/core/process/process.c:437-464 | for any priorities: the running process keeps the processor, registers and directory exactly while its time is at most 1000 / live processes + 100 * priority, or nobody else can run |
| SchedulerLaws.GoesToBest | TomatKernel/core/process/process.c:409-464 | otherwise, or if nobody runs, it goes to the first process never run, else to the first of highest score suspended_time * (priority + 1), with its registers, segments and directory |
| SchedulerLaws.GoesToAlive | TomatKernel/core/process/process.c:428-431 | and if there is none, to ALIVE at its entry point |
| SchedulerLaws.EntriesCharged | TomatKernel/core/process/process.c:381-407 | a timer update charges every entry ten milliseconds and ten for each tick skipped, modulo 2^32, and hands waiting processes their first event |
| SchedulerLaws.UpdateGuards | TomatKernel/core/process/process.c:369-374 | switched off an update does nothing, held up it counts ticks |
| HandlerLaws.QueueReaches | TomatKernel/core/process/process.c:126-161 | an event for 0 is appended to the caller's queue, one for a uid to that of the first live process with it if it is the caller or ranks no higher; no other queue changes |
| HandlerLaws.KeyReaches | TomatKernel/core/drivers/ps2_keyboard.c:29-62 | a key event goes to the first live core process |
| HandlerLaws.TimersThenUpdate | TomatKernel/core/timer.c:29-57 | expired timers push their events in table order, the rest lose ten milliseconds, an update follows |
| HandlerLaws.PullTakes | TomatKernel/core/process/process.c:113-117 | with an event queued it becomes the current event and its address the result |
| HandlerLaws.PullWaits | TomatKernel/core/process/process.c:118-123 | with none the process waits with its registers saved, and an update follows |
| HandlerLaws.KillSpares | TomatKernel/core/process/process.c:163-183 | a kill by uid changes nothing if the caller ranks no lower than the victim |
| HandlerLaws.KillEnds | TomatKernel/core/process/process.c:163-183 | otherwise exactly the victim ends, with its queue and its timers |
| HandlerLaws.KillSelf | TomatKernel/core/process/process.c:289-319 | a kill by 0 ends the caller; ALIVE's directory is loaded and an update follows |
| HandlerLaws.KillSafeIff | TomatKernel/core/process/process.c:163-183 | the null pointers are followed exactly for an unknown uid or without a caller |
| HandlerLaws.SpawnFills | TomatKernel/core/process/process.c:233-287 | every field of the new process and the slot it takes |
| HandlerLaws.StartSwitchesOn | TomatKernel/core/process/process.c:96-105 | scheduling is switched on once, with ALIVE's directory, and an update follows |
| HandlerLaws.FirstRun | TomatKernel/core/process/process.c:335-348 | a process runs first at its entry point with its stack, flags 0x202, all other registers zero |
| HandlerLaws.SegmentsOnEntry | TomatKernel/core/process/process.c:350-365 | whoever gets the processor has kernel segments exactly if its user is ALIVE's, and its own directory |
| HandlerLaws.TimerStartAnswers | TomatKernel/core/timer.c:98-114 | the answer is a nonzero number no unfinished timer has; one timer now has it, the caller's, in the first finished slot or a new one |
| HandlerLaws.TimerCancelFinishes | TomatKernel/core/timer.c:116-122 | exactly the caller's timers with the number, or all of them for 0 |
| HandlerLaws.CancelByAnswer | TomatKernel/core/timer.c:59-81 | the number timer_start answers with ends that timer and no other |
| Turns.TurnEndsExactly | TomatKernel/core/process/process.c:437-464 | of two busy processes beside ALIVE the first runs for 33 ticks and the 34th gives the processor to the second |
| Turns.BootIsOff | TomatKernel/core/process/process.c:189-207 | after boot clock and start leave everything as it is but the switch |
| Turns.FirstSteps | TomatKernel/core/process/process.c:34-124 | from boot: the first process runs at its entry point in its directory, and when it waits ALIVE is entered in kernel segments |
| Kernel.FlagIsPassive | TomatKernel/core/process/process.c:376-468 | an update neither reads nor writes `can_update` between the two places that set it |
| KernelMachine.TomatKernel.constructor | TomatKernel/core/process/process.c:189-207 | after initialisation the state is `Boot`: ALIVE alone, parked, its times and registers whatever memory held, and scheduling off |
| KernelMachine.TomatKernel.ProcessGet | TomatKernel/core/process/process.c:217-223 | the first live process with the uid, none exactly if there is none |
| KernelMachine.TomatKernel.ProcessGetRunning | TomatKernel/core/process/process.c:226-231 | the first RUNNING process |
| KernelMachine.TomatKernel.ProcessGetCoreProcess | TomatKernel/core/process/process.c:209-215 | the first live core process |
| KernelMachine.TomatKernel.PullEvent | TomatKernel/core/process/process.c:321-326 | the head of the queue becomes the current event, the rest moves up, nothing else changes |
| KernelMachine.TomatKernel.ProcessSwitch | TomatKernel/core/process/process.c:328-366 | the old process is saved and runnable, the new one runs with its registers, segments and directory loaded |
| KernelMachine.TomatKernel.Scan | TomatKernel/core/process/process.c:411-426 | the selection loop finds the process that Pick describes |
| KernelMachine.TomatKernel.TickLoop | TomatKernel/core/process/process.c:385-407 | every entry is charged and possibly woken, with the running entry and the number of live ones found |
| KernelMachine.TomatKernel.CheckQuantum | TomatKernel/core/process/process.c:437-464 | the running process loses the processor only past its quantum and to the scan's pick |
| KernelMachine.TomatKernel.SchedulerUpdate | TomatKernel/core/process/process.c:368-469 | the whole update with its guards and skipped ticks does what module Kernel says of the state before |
| KernelMachine.TomatKernel.ProcessCreate | TomatKernel/core/process/process.c:233-270 | the next uid, priority zero, suspended, not started, no events |
| KernelMachine.TomatKernel.ProcessStart | TomatKernel/core/process/process.c:272-287 | the first dead slot is reused and scheduling stays off, otherwise the table grows and it goes on |
| KernelMachine.TomatKernel.ProcessKill | TomatKernel/core/process/process.c:289-319 | the victim is dead, its queue and timers gone, and a new process is chosen exactly if it was running |
| KernelMachine.TomatKernel.SyscallStartAlive | TomatKernel/core/process/process.c:96-105 | scheduling is switched on once, with ALIVE's directory |
| KernelMachine.TomatKernel.SyscallPullEvent | TomatKernel/core/process/process.c:107-124 | an event is handed over at once, or the process is saved and waits; fails exactly if nothing runs |
| KernelMachine.TomatKernel.SyscallQueueEvent | TomatKernel/core/process/process.c:126-161 | the event reaches the target's queue if the target exists and the caller may write to it |
| KernelMachine.TomatKernel.SyscallProcessKill | TomatKernel/core/process/process.c:163-183 | who is killed, with the permission test as the code has it; fails exactly on an unknown uid or no caller |
| KernelMachine.TomatKernel.SyscallTimerStart | TomatKernel/core/timer.c:59-69 | a timer of the running process is started and its id returned |
| KernelMachine.TomatKernel.SyscallTimerCancel | TomatKernel/core/timer.c:71-81 | only timers of the running process are cancelled |
| KernelMachine.TomatKernel.Spawn | TomatKernel/boot/kernel_boot.c:92-94 | create, mark as core, start |
| KernelMachine.TomatKernel.StartTimer | TomatKernel/core/timer.c:98-114 | the first finished slot is reused, otherwise the table grows; the id counter wraps |
| KernelMachine.TomatKernel.TimerCancel | TomatKernel/core/timer.c:116-122 | exactly the owner's timers with that id, or all of them for id 0, are finished |
| KernelMachine.TomatKernel.FireTimers | TomatKernel/core/timer.c:30-54 | due timers push one event each in table order, the rest count down; fails exactly if a due timer has no live owner |
| KernelMachine.TomatKernel.HandleTimerIrq | TomatKernel/core/timer.c:29-57 | timers first, then the scheduler; panics exactly when the operation is not safe |
| KernelMachine.TomatKernel.AliveWaitForEvents | TomatKernel/core/process/process.c:34-42 | ALIVE counts as suspended and started again, whatever it was before |
| KernelInvariant.UpdateLeavesOneRunning | TomatKernel/core/process/process.c:368-469 | after a completed update exactly one process runs: the pick, the old holder within its quantum, or ALIVE only if nothing ran and nothing qualifies |
| KernelInvariant.StepKeepsInv | TomatKernel/core/process/process.c:96-469 | every interrupt and syscall keeps the invariant |
| KernelInvariant.OwnersDeliverable | TomatKernel/core/timer.c:43-46 | under the invariant the panic of the timer interrupt is not reached |
| KernelInvariant.EveryReachableState | TomatKernel/core/process/process.c:289-469 | from boot on: at most one process runs, ALIVE is parked, uids are distinct, each unfinished timer has a live owner, a live directory is loaded |
| KernelInvariant.StartFreezesIff | TomatKernel/core/process/process.c:272-287 | starting leaves scheduling on exactly if no dead slot was there |
| KernelInvariant.FreezeReached | TomatKernel/core/process/process.c:272-287 | a run from boot of five calls ends with scheduling on and `can_update` off |
| KernelInvariant.FrozenNeverSwitches | TomatKernel/core/process/process.c:370-374 | once off, nothing but a kill or start brings a switch; ticks are only counted |
| Delivery.ExactlyOnceInOrder | TomatKernel/core/process/process.c:107-161 | over every run: queued before, then pushed, equals delivered, then still queued; nothing lost, doubled or reordered |
| Delivery.DeliveryStep | TomatKernel/core/process/process.c:398-406 | the same for one operation, the direct and the waking path alike |
| Delivery.PulledVisible | TomatKernel/core/process/process.c:113-117 | the puller finds the address of its event in eax |
| Delivery.WokenVisible | TomatKernel/core/process/process.c:398-405 | a woken process will find it there when it resumes |
| Delivery.GoneForGood | TomatKernel/core/process/process.c:237 | once no live process has a uid handed out before, none ever has it again, in any slot |
| Context.LeavingSaves | TomatKernel/core/process/process.c:328-333 | a process leaves the processor alive only by a tick or a wait, and its frame is saved either way |
| Context.ImagePreserved | TomatKernel/core/process/process.c:335-366 | a process off the processor resumes with the image it had, through every run |
| Context.ContextPreserved | TomatKernel/core/process/process.c:119-122 | losing and regaining the processor leaves all registers, up to the user's ds and cs and eax naming the event waited for |
| Fairness.WaitStep | TomatKernel/core/process/process.c:381-466 | while a process waits the potential never grows, and a tick with an entitled holder lowers it |
| Fairness.BoundedWaiting | TomatKernel/core/process/process.c:381-466 | every runnable process, also one that has not waited yet and with nobody running, runs or dies before more ticks than the others' leads plus unused quanta plus one |
| Fairness.TicksServe | TomatKernel/core/process/process.c:381-466 | with only the clock running, which it always can, a waiting process runs after one of the ticks its bound allows |
| Fairness.TwoProcessesTakeTurns | TomatKernel/core/process/process.c:437-464 | an instance: of two busy processes beside ALIVE the waiting one runs within 36 ticks |
| TimerRuns.RunProjects | TomatKernel/core/timer.c:29-122 | the timer table of a kernel run is a run of the timer operations in it, kills included |
| TimerRuns.PendingTimerFiresOnce | TomatKernel/core/timer.c:29-57 | in the running kernel a pending timer neither cancelled nor orphaned fires exactly once, on its tick |
| TimerRuns.PendingTimerEventOnce | TomatKernel/core/timer.c:29-57 | in every state reached from boot such a timer puts exactly one event with its id into its owner's queue, beside those that processes forge |
| HeapBlocks.PagesNeeded | TomatKernel/core/memory/heap.c:91 | the fewest pages after which the 32-bit sum of used size and request is below the size |
| HeapProofs.AllocateKeeps | TomatKernel/core/memory/heap.c:194-270 | the shape is kept, the new block holds the bytes asked for, no other live block is touched |
| HeapProofs.AllocationSucceedsIff | TomatKernel/core/memory/heap.c:208-258 | exactly when a pointer is returned, when a header then runs into the next block, and when it runs off the heap into a page fault |
| HeapProofs.AllocationFailsIff | TomatKernel/core/memory/heap.c:243-270 | exactly when the allocator panics, and when growing would leave 32 bits |
| HeapProofs.FirstFitIff | TomatKernel/core/memory/heap.c:197-209 | the block chosen is the lowest free one with at least the bytes asked for |
| HeapFailures.FirstPointers | TomatKernel/core/memory/heap.c:163-258 | the first two pointers of a process by address |
| HeapProofs.SplitTestIff | TomatKernel/core/memory/heap.c:212-216 | the test splits for every remainder but one header; the pieces fit only from a header on |
| HeapMachine.TornDescribesNothing | TomatKernel/core/memory/heap.c:212-258 | after the header writes of a split with less than a header to spare no well formed list of blocks describes the headers |
| HeapMachine.ExactFitOverwrites | TomatKernel/core/memory/heap.c:212-234 | at an exact fit the header of the next block, which is taken, becomes that of a free block of nearly 2^32 bytes before itself |
| HeapFailures.TestsDifferIff | TomatKernel/core/memory/heap.c:212 | the compiled and the intended test give different results exactly where a header leaves its block |
| HeapFailures.FaultReached | TomatKernel/core/memory/heap.c:212-218 | one call on a fresh heap, for all its free bytes or up to 15 fewer, writes a header off its only page |
| HeapFailures.ExactFitReached | TomatKernel/core/memory/heap.c:212-258 | from a fresh heap: allocate x and y bytes, free the first and ask for x again, for all x and y that fit the page |
| HeapFailures.EndlessReached | TomatKernel/core/memory/heap.c:265-269 | from a fresh heap five calls reach the retry that never ends |
| HeapProofs.EndlessIff | TomatKernel/core/memory/heap.c:265-269 | for every 32-bit request that does not fit: the retry never succeeds exactly if the sum with the bytes used wraps, or the heap can grow and its last block is taken or still too small |
| HeapProofs.WrapsEndless | TomatKernel/core/memory/heap.c:89-94 | when that sum wraps nothing fits, nothing grows and the retry is endless |
| HeapFailures.WrapReached | TomatKernel/core/memory/heap.c:89-94 | one call on a fresh heap with a size of at least 2^32 - 16 |
| HeapProofs.RetryRepeats | TomatKernel/core/memory/heap.c:89-94 | growing again for the same request adds nothing |
| HeapProofs.SingleFreeTopFits | TomatKernel/core/memory/heap.c:265-269 | if only the last block is free, growing makes room, and the retry ends, exactly if used bytes plus request do not wrap at 2^32 |
| HeapProofs.FreeKeeps | TomatKernel/core/memory/heap.c:272-296 | the shape is kept, exactly the freed block stops being live, the accounting follows |
| HeapProofs.MergeKeeps | TomatKernel/core/memory/heap.c:55-87 | the recursion ends without free neighbours and gives back a header per block swallowed |
| HeapProofs.FreeUndoesAllocate | TomatKernel/core/memory/heap.c:194-296 | allocate then free gives the very same list of blocks, or the one growing made of it |
| HeapProofs.LiveApart | TomatKernel/core/memory/heap.c:194-258 | live blocks lie inside the heap and do not overlap |
| HeapProofs.ReallocateKeeps | TomatKernel/core/memory/heap.c:298-326 | the old block is exchanged for one of at least the new size, all others stay |
| HeapProofs.ElsewherePointers | TomatKernel/core/memory/heap.c:272-311 | reallocating NULL or a pointer to no block is a plain allocation, freeing a pointer that is not live changes no block, and a request of no bytes gets NULL |
| HeapProofs.ReallocateFreedIff | TomatKernel/core/memory/heap.c:298-326 | given a block already freed, the block returned is live exactly if the allocation chose another; no other block stops being live |
| HeapFailures.ResizeFreedReached | TomatKernel/core/memory/heap.c:298-326 | from a fresh heap: after two allocations and a free, moving the freed pointer returns a pointer to a free block |
| HeapProofs.RunKeeps | TomatKernel/core/memory/heap.c:194-326 | the shape holds after every run of operations that return: with the intended split test always, as compiled while no header has run past its block |
| HeapMachine.HeapContext.constructor | TomatKernel/core/memory/heap.c:163-192 | a process heap starts as one page with one free block |
| HeapMachine.HeapContext.GetNextFreeBlock | TomatKernel/core/memory/heap.c:47-53 | the lowest free block further up, invalid exactly if there is none |
| HeapMachine.HeapContext.Search | TomatKernel/core/memory/heap.c:197-263 | the loop from `first_free` ends at the lowest free block that fits, or finds that none does |
| HeapMachine.HeapContext.GetBlock | TomatKernel/core/memory/heap.c:21-32 | a pointer is valid exactly if it names the payload of a block, and then which |
| HeapMachine.HeapContext.Split | TomatKernel/core/memory/heap.c:212-241 | the header writes of a split for every remainder the test lets through, and their effect on `before`, `first_free`, `top_block` and the used size |
| HeapMachine.HeapContext.ClaimTorn | TomatKernel/core/memory/heap.c:212-258 | with less than a header to spare before another block: the exact headers left behind, no live payload changed |
| HeapMachine.HeapContext.ClaimOver | TomatKernel/core/memory/heap.c:212-234 | that, or a page fault exactly if the block is the last |
| HeapMachine.HeapContext.Expand | TomatKernel/core/memory/heap.c:89-94 | the loop, guarded by a 32-bit sum, grows the last block and the size by the fewest pages that end it |
| HeapMachine.HeapContext.Allocate | TomatKernel/core/memory/heap.c:194-270 | the outcome and the blocks are those of the specification and no live payload changes; when a pointer is returned some block list describes the heap if and only if the outcome is not `Corrupted` |
| HeapMachine.HeapContext.MergeEmptyBlocks | TomatKernel/core/memory/heap.c:55-87 | merging on both sides keeps headers, `before` links, `top_block` and the used size right |
| HeapMachine.HeapContext.Free | TomatKernel/core/memory/heap.c:272-296 | a live pointer is given back, other pointers change no block, a double free spoils the used size by the block's size |
| HeapMachine.HeapContext.Reallocate | TomatKernel/core/memory/heap.c:298-326 | the first min(old, new) bytes are found at the new pointer and every other live byte is as it was; a block already freed is freed once more, with every live byte as it was |
| PageBits.UnmarkMark | TomatKernel/core/memory/paging.c:44-64 | freeing the page just allocated restores the bitmap |
| PageBits.AllocationReturnsIff | TomatKernel/core/memory/paging.c:17-42 | the allocator comes back exactly if two pages it can see are free |
| PageTables.AddTableKeeps | TomatKernel/core/memory/paging.c:194-201 | a missing table changes no translation and takes the lowest free page |
| PageTables.MapKeeps | TomatKernel/core/memory/paging.c:190-220 | directory, tables and leaves stay distinct taken pages; one translation changes, to the lowest page free once the old one is released |
| PageRanges.RangeReturnsIff | TomatKernel/core/memory/paging.c:182-188 | mapping a range of unmapped pages comes back exactly if more pages are free than it has pages and missing tables |
| PageRanges.RangeMaps | TomatKernel/core/memory/paging.c:182-220 | every page of any range gets a frame of its own, free before or given back by the range itself; nothing else moves or is let go; for an unmapped range all frames were free |
| PageRanges.RangeCoversIff | TomatKernel/core/memory/paging.c:182-188 | all bytes asked for are covered exactly if offset plus size fit the pages counted, as for an aligned start |
| PageRanges.RangeMissesLast | TomatKernel/core/memory/paging.c:182-188 | whole pages asked for from inside a page: the last byte is always missed |
| PageRanges.IdentitySoundIff | TomatKernel/core/memory/paging.c:150-180 | for any page: the directory stays sound exactly if the page is taken, not part of it and not mapped onto itself already |
| PageRanges.IdentityTwiceRuins | TomatKernel/core/memory/paging.c:150-180 | mapping any kernel page onto itself again makes a new directory unsound |
| PageRanges.IdentityReturnsIff | TomatKernel/core/memory/paging.c:120-148 | a list of such mappings comes back exactly if no table is missing or more pages are free than tables are missing |
| PageRanges.KernelBytesIff | TomatKernel/core/memory/paging.c:92-118 | the kernel's pages by address |
| PageRanges.InitTranslates | TomatKernel/core/memory/paging.c:120-148 | a new directory is the identity on kernel, kernel heap and VGA pages and undefined elsewhere |
| PageRanges.FreshPageFits | TomatKernel/core/process/process.c:240-241 | the page the allocator gives out is fit to become a directory |
| PageRanges.FreeingKeepsOtherIff | TomatKernel/core/memory/paging.c:222-247 | another directory survives exactly if the two have no page in common |
| PageRanges.FreeingRuinsOthers | TomatKernel/core/memory/paging.c:222-247 | two directories that map the VGA page always have one, and it is handed out soon |
| Conservation.FreeUndoesCreate | TomatKernel/core/memory/paging.c:222-247 | freeing a new process's directory leaves every page as before it was created, except that all kernel pages are free |
| Isolation.GrewKeepsOther | TomatKernel/core/memory/paging.c:190-220 | work on one directory leaves a directory whose own pages it does not use exactly as it was |
| Isolation.StepIsolates | TomatKernel/core/memory/paging.c:190-220 | making a directory or mapping any page keeps all spaces apart exactly if no kernel page is mapped over, or only one the allocator gives straight back; then no other translation changes |
| Isolation.KernelRemapRuins | TomatKernel/core/memory/paging.c:208-219 | otherwise every other space is left unsound |
| Isolation.SpacesShareKernelOnly | TomatKernel/core/process/process.c:240-257 | over every run of such steps, a frame two directories both reach is a kernel page at its own address |
| Isolation.FreeingRuinsReachable | TomatKernel/core/memory/paging.c:222-247 | after every such run, freeing any directory leaves every other unsound |
| ProcessSpaces.SpaceTranslates | TomatKernel/core/process/process.c:240-257 | a new process reaches exactly the kernel's pages at their own addresses, the 512 lowest stack pages and its first heap page, the latter in different pages that were free |
| ProcessSpaces.SpaceBytesIff | TomatKernel/core/process/process.c:244-257 | its stack pages, heap page and first stack pointer by address |
| PageRights.MapGrants | TomatKernel/core/memory/paging.c:190-220 | the page mapped may be reached and written by the process, no other page's rights change |
| PageRights.IdentityGrants | TomatKernel/core/memory/paging.c:150-180 | exactly the rights asked for |
| PageRights.InitGrants | TomatKernel/core/memory/paging.c:120-148 | in a new directory the image is for the kernel only, its heap and the VGA pages readable by the process, nothing writable |
| PageRights.RangeGrants | TomatKernel/core/memory/paging.c:182-188 | every page of the range may be reached and written |
| PageRights.SpaceGrants | TomatKernel/core/process/process.c:240-257 | a new process may write exactly its stack and heap pages |
| ProcessSpaces.SpaceReturnsIff | TomatKernel/core/process/process.c:240-257 | the exact number of free pages creating a process needs |
| ProcessSpaces.FirstPushUnmapped | TomatKernel/core/process/process.c:248-261 | nothing is mapped from the end of those stack pages up to the heap, where the stack pointer starts |
| ProcessSpaces.CreationRuns | TomatKernel/core/process/process.c:240-257 | creating a process is a run of operations that keep all spaces apart |
| PagingMachine.Paging.constructor | TomatKernel/core/memory/paging.c:92-118 | exactly page 0, the kernel, its heap and the VGA pages are taken |
| PagingMachine.Paging.AllocateNewPage | TomatKernel/core/memory/paging.c:17-42 | the lowest free page is marked, no other, with all bytes below the hint full and at most one recursion |
| PagingMachine.Paging.AllocatePage | TomatKernel/core/memory/paging.c:44-50 | exactly that page is marked |
| PagingMachine.Paging.FreePage | TomatKernel/core/memory/paging.c:52-64 | exactly that page is unmarked and the hint stays below every byte with room |
| PagingMachine.Paging.MapPage | TomatKernel/core/memory/paging.c:190-220 | the in-place writes add up to the mapping whose properties are proved |
| PagingMachine.Paging.MapIdentityPage | TomatKernel/core/memory/paging.c:150-180 | the same for identity mappings and their flags |
| PagingMachine.Paging.MapPages | TomatKernel/core/memory/paging.c:182-188 | wherever the loop comes back it maps the range page by page |
| PagingMachine.Paging.InitDirectoryPage | TomatKernel/core/memory/paging.c:120-148 | the four stretches are mapped in order into the wiped page |
| PagingMachine.Paging.NewDirectory | TomatKernel/core/process/process.c:240-241 | the lowest free page becomes the directory of a new process |
| PagingMachine.Paging.NewProcessSpace | TomatKernel/core/process/process.c:240-257 | directory, stack and heap page are built in place as in the space described above, whenever there are pages enough |
| PagingMachine.Paging.FreeDirectory | TomatKernel/core/memory/paging.c:222-247 | exactly the directory, its present tables and their present leaves stop being taken, and the hint stays right |
| PagingMachine.Paging.GetPhysicalAddress | TomatKernel/core/memory/paging.c:249-260 | frame of the page and the same offset, or 0 where nothing is mapped |
| Strings.StringLength | TomatKernel/klibc/string.c:60-64 | the place of the first zero byte |
| Strings.Reverse | TomatKernel/klibc/string.c:49-58 | the string is turned round in place, its end and everything else stay |
| Strings.PrintUnsigned | TomatKernel/klibc/string.c:18-37 | exactly the printed bytes are written and their number returned |
| Strings.PrintSigned | TomatKernel/klibc/string.c:3-16 | a sign for negative numbers, then the printed magnitude |
| Strings.PrintedText | TomatKernel/klibc/string.c:18-37 | reading gives the number back, only "0" begins with 0, the length returned is strlen, only 0 in radix 2 or 16 prints nothing |
| Strings.PrintedExamples | TomatKernel/klibc/string.c:3-37 | "-FF" and "10" byte by byte |
| Strings.PrintsFaithfullyIff | TomatKernel/klibc/string.c:25-36 | all numbers read back with the right length exactly in the radices up to 201, hence up to 36 |
| Strings.SignedReadsBack | TomatKernel/klibc/string.c:9-15 | every signed number reads back, the minimum too, and has a sign exactly if negative |
| Strings.Memcpy | TomatKernel/klibc/string.c:85-92 | n bytes arrive and the rest of the target stays; inside one buffer exactly which byte is repeated where the target begins in the source |
| Strings.Memmove | TomatKernel/klibc/string.c:94-99 | the same of the old source bytes when source and target overlap |
| GrowBuffer.InOrder | TomatKernel/core/process/process.c:321-326 | over every run of pushes and removals what came out, then what is inside, is what went in |
| GrowBuffer.CopiesFewerThanTwice | TomatKernel/core/sbuf.c:4 | the items always fit, and n > 0 pushes copy fewer than 2n elements in all |
| GrowBuffer.GrownBlockHoldsIff | TomatKernel/core/sbuf.c:3-6 | the block a full buffer grows into holds even its old elements exactly if its size does not wrap at 2^32 |
| GrowBuffer.Growable.Grow | TomatKernel/core/sbuf.c:3-16 | the contents are kept in a new block of the larger capacity |
| GrowBuffer.Growable.PushBack | TomatKernel/core/sbuf.h:25-26 | the element is appended, growing only if there is no room |
| GrowBuffer.Growable.PullFront | TomatKernel/core/process/process.c:321-326 | the first element comes out and the others keep their order |

## Left out

- Boot, GDT, IDT, PIC and PIT programming, port I/O, assembly, syscall dispatch and the exception screen: hardware effects or plumbing.
- `paging_set` is kept as the directory last loaded; paging switched on or off and the TLB are not modelled, tables are read and written as physical memory, as the comment in core/memory/paging.c:121-123 assumes.
- Windows, the terminal and the keyboard driver: a key is a push to the core process.
- The kernel heap (`pd` NULL, one page of size but a block of 45 MB) is not modelled, only heaps of processes.
- The reset of ALIVE to suspended, its first instructions, is taken as one step with entering it (`Park`).
- Pointers into the process and timer tables are slots; a pointer gone stale because the table grew is not modelled.
- `eax` holds a number or names the process whose `current_event` it points to; registers that switching treats alike are grouped.
- The heap of a process, its window and the pages `process_kill` frees are not part of the kernel state; freeing a directory is modelled by itself.
- KernelMachine.TomatKernel.Spawn: uids below 2^31 are required, since `uid` is a signed int whose overflow the language leaves undefined.
- KernelMachine.TomatKernel.ProcessCreate: the directory, stack range and heap it sets up for the process are outside this state; `Paging.NewProcessSpace` and the constructor of `HeapContext` model them.
- KernelMachine.TomatKernel.ProcessKill: the freed directory and the deleted windows are outside this state; `Paging.FreeDirectory` models the former.
- Timers.StartedFiresOnce: stated until the 32-bit id counter wraps, as ids repeat afterwards; so is `TimerRuns.PendingTimerEventOnce`.
- HeapMachine.HeapContext.Split: where two headers overlap, the bytes each takes from the other are a parameter (`Smear`); what is proved holds for all its values.
- HeapMachine.HeapContext.Allocate: a heap that would grow to 2^32 or beyond is the outcome `OutOfAddressSpace`, a case for which the code has no test; the pages `expand` maps are taken to be there, and the page behind the heap not to be mapped.
- HeapMachine.HeapContext.Free: `used_size` is not wrapped at 2^32, which matters only after a double free.
- HeapMachine.HeapContext.Reallocate: where the allocation in it is `Corrupted`, the copying and freeing after it are not followed; after a double free only the blocks, not `used_size`, are stated.
- HeapProofs.RunKeeps: with the compiled test it says nothing of runs that go on after a header has run past its block; no block list describes their heap.
- Payload bytes that happen to look like a header (the magic number at the right place) are not modelled: storing a byte removes any header it falls in.
- Strings.PrintUnsigned: radix 0 (a division by zero) and radix 1 (an endless loop) are excluded for numbers other than 0.
- GrowBuffer.Growable.Grow: block sizes are required to stay below 2^32, beyond which the block is too short (`GrownBlockHoldsIff`), and a failing allocation is not modelled; `PushBack` inherits both.
- PagingMachine.Paging.MapPages: required to come back, the condition that `RangeReturnsIff` shows to be exact for unmapped pages.
- Isolation.SpacesShareKernelOnly: runs make directories and map pages; freeing a directory and mapping over a kernel page break the property, which are `FreeingRuinsReachable` and `KernelRemapRuins`.
- PagingMachine.Paging.AllocateNewPage: two free pages in reach are required, the condition `AllocationReturnsIff` shows to be exact.
- `strcmp`, `strrchr`, `memcmp`, `memset`, `math.c`, `setjmp` and the C++ support: simple or conditional code.
