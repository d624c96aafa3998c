# ScalesOS in Dafny

A model of the parts of ScalesOS, a 32-bit kernel with its own C library, dynamic linker and compositor, in which
several functions share a piece of state, with proofs of what they keep. Where the original changes state in place the
model is a class with the same fields and loops, and each method is proved equal to a function on values; the laws are
lemmas about those functions. `dafny verify dfyconfig.toml` checks everything.

- `HeapBlocks`, `HeapLive`, `KernelHeap`: the kernel heap, from the block list to headers written in bytes. The merge
  pass is incomplete, and the fragmentation it leaves obeys an exact bound.
- `FrameAllocator`, `AddressSpaces`: the bitmap of physical frames, and cloning and releasing page directories on it.
- `Scheduler`, `SchedulerRuns`, `WaitLaws`, `ProcessCore`, `ProcessRuns`, `WaitpidLaws`, `RootExits`, `MutexTurns`,
  `MutexStarvation`: ready queue, wait queues kept twice, waitpid, exit and mutex as a step machine. Code between two
  switches is one step, since system calls run with interrupts off on one processor.
- `RingBuffer`, `LineDiscipline`, `LineEditor`, `TtyDevice`, `TtyInput`, `FlushRace`: the kernel's byte FIFO, the terminal's
  line discipline, the one in front of the other, and two writers at once.
- `ResizeProtocol`, `StableSort`, `Stacking`, `WindowPlaces`, `Compositor`: the resize handshake between compositor and window owner,
  and the stacking order kept by the list library's sort.
- `EntropyCoding`, `BlockCoding`, `ScanCoding`, `JpegReader`: the JPEG decoder from stuffed bytes to coefficients, against the coding
  of ITU-T T.81.
- `Ext2Reads`, `Ext2Layout`, `Linker`, `Division`: cached file reads, dependency loading, and 64-bit division.
- `Basics`, `Powers`: what several modules share.

Laws that the code does not meet on all inputs are stated with the exact condition under which it does:
`RingBuffer.StepJustified` (requests of zero bytes), `LineDiscipline.LeavingKeepsOrder` (a quoted byte outstanding),
`LineEditor.RuboutUndoes` (a full line), `ResizeProtocol.HonoursExactly` (owner, context and creation flags),
`TtyInput.FullLineSleeps` (a commit of a full line), `FlushRace.IntactExactly` (a byte typed into a flush),
`KernelHeap.VallocFits` (32-bit wrap of a request), `MutexTurns.ServedExactly` (a mutex taken before the waiter runs),
`Stacking.RaiseExact` and `Stacking.ClientRaiseExact` (the largest height, a request dropped),
`Ext2Reads.ReadIsExact` (32-bit wrap of offset plus size), `Ext2Reads.RightBlock` (32-bit wrap of a block's address)
and `RootExits.RootMissesExactly` (exits that hand over to the root).

## Model

| member | source | states |
|---|---|---|
| HeapBlocks.FitsMeans | libc/src/stdlib/alloc.c:174-181 | a block serves a request exactly if it is free and of that size, or can be cut into a block of that size and a free one, with their headers, that cover the same bytes |
| HeapBlocks.AllocIs | libc/src/stdlib/alloc.c:171-220 | if some block serves the request the first one does, is cut to exactly its size, and no other block changes |
| HeapBlocks.AllocGrows | libc/src/stdlib/alloc.c:183-213 | otherwise no block changes and the new pages hold the request, with no room left to cut |
| HeapBlocks.GrowsByFewest | libc/src/stdlib/alloc.c:184 | the pages mapped are the fewest that hold more than the request, a header and one byte |
| HeapBlocks.MergeHalvesPairs | libc/src/stdlib/alloc.c:149-161 | one merge pass leaves at most half of the adjacent free pairs |
| HeapBlocks.MergeOfRun | libc/src/stdlib/alloc.c:149-161 | the pass turns a run of k free blocks into exactly ceil(k/2): it steps past a pair it merged |
| HeapBlocks.AllocKeepsPairs | libc/src/stdlib/alloc.c:171-220 | malloc, by carving or by growing, adds no adjacent free pair |
| HeapBlocks.ReleaseKeepsTidy | libc/src/stdlib/alloc.c:245-262 | free followed by its merge pass keeps at most one adjacent free pair |
| HeapBlocks.TidyMeaning | libc/src/stdlib/alloc.c:149-161 | the count of pairs read block by block: any two places where two free blocks meet are the same place |
| HeapBlocks.TidyNoTriple | libc/src/stdlib/alloc.c:149-161 | no three consecutive blocks are all free |
| HeapBlocks.RunKeepsTidy | libc/src/stdlib/alloc.c:171-262 | after every run of malloc, free and realloc, from the initial heap or any tidy one, at most one adjacent pair is free |
| HeapBlocks.PairIsReachable | libc/src/stdlib/alloc.c:149-262 | the bound is attained: for every request size some run from the initial heap that makes the request ends with an adjacent free pair |
| HeapLive.LiveMerge | libc/src/stdlib/alloc.c:149-161 | the merge pass moves, drops and adds no range that is handed out |
| HeapLive.AllocLive | libc/src/stdlib/alloc.c:171-220 | malloc hands out one new range of at least the requested size, clear of every other, and changes no other |
| HeapLive.ReleaseLive | libc/src/stdlib/alloc.c:245-262 | free removes exactly the range it is given |
| KernelHeap.ChainSplice | libc/src/stdlib/alloc.c:103-147 | replacing a stretch of headers by headers that cover the same bytes leaves a chain that tiles the heap without gap or overlap |
| KernelHeap.SplitChain | libc/src/stdlib/alloc.c:124-147 | the two headers of a split continue the chain |
| KernelHeap.JoinChain | libc/src/stdlib/alloc.c:149-161 | the rewritten header of a merge continues the chain |
| KernelHeap.GrowChain | libc/src/stdlib/alloc.c:52-68 | mapped pages become one free block behind the old end |
| KernelHeap.FillChain | libc/src/stdlib/alloc.c:228-243 | a write inside a range handed out breaks no header and changes no other range |
| KernelHeap.Heap.SplitBlock | libc/src/stdlib/alloc.c:124-147 | succeeds exactly when the block is large enough; then the remainder is a free block of its own, otherwise nothing changes; only bytes of that block change |
| KernelHeap.Heap.Merge | libc/src/stdlib/alloc.c:149-161 | the pointer walk over the headers computes the merge pass and changes no byte of a payload in use |
| KernelHeap.Heap.FindFit | libc/src/stdlib/alloc.c:174-181 | the walk finds the first block that fits, or the last block of the chain |
| KernelHeap.Heap.Grow | libc/src/stdlib/alloc.c:52-68 | adds whole pages behind the heap as one free block; refuses exactly when they would run past the end of the heap area |
| KernelHeap.Heap.Malloc | libc/src/stdlib/alloc.c:171-220 | panics exactly when nothing fits and the heap cannot grow; otherwise a new range of at least n bytes, disjoint from all others, no byte of another range changed, chain and fragmentation bound kept |
| KernelHeap.Heap.Free | libc/src/stdlib/alloc.c:245-262 | refuses foreign pointers and blocks already free without change; otherwise gives back exactly that range, keeps all other bytes, the chain and the fragmentation bound |
| KernelHeap.Heap.Realloc | libc/src/stdlib/alloc.c:228-243 | same size returns the same pointer; otherwise the new range starts with the common prefix of the old one, the old one is gone and every other range keeps its bytes |
| KernelHeap.Heap.Valloc | libc/src/stdlib/alloc.c:268-276 | for requests that do not wrap: the address is a multiple of the alignment, the size fits in the range handed out, and the word in front holds the pointer to give back |
| KernelHeap.VallocFits | libc/src/stdlib/alloc.c:268-276 | the request is a 32-bit sum: wherever malloc puts the range it was asked for, the aligned payload fits if and only if size plus alignment plus 3 does not wrap |
| KernelHeap.VallocOverrun | libc/src/stdlib/alloc.c:268-276 | valloc(0xFFFFFFF0, 16) on a fresh heap asks malloc for 3 bytes, gets them, and stores its pointer over the size field of the next header |
| KernelHeap.Heap.Vfree | libc/src/stdlib/alloc.c:264-266 | gives back exactly the range recorded in front of the pointer |
| FrameAllocator.ScanFound | kernel/src/mem/pmm.c:92-111 | the search loop that completes a run has found the lowest run of the whole bitmap |
| FrameAllocator.ScanExhausted | kernel/src/mem/pmm.c:92-111 | the search loop that runs off the end has shown that no run of that length exists anywhere |
| FrameAllocator.Pmm.FindRun | kernel/src/mem/pmm.c:81-111 | starting from the hint, the lowest-addressed run of n free frames, or none exists |
| FrameAllocator.Pmm.AdvanceHint | kernel/src/mem/pmm.c:120-130 | every word below the hint is zero, and the hint stops at a word that is not, or at the end of the bitmap |
| FrameAllocator.Pmm.AllocFrames | kernel/src/mem/pmm.c:74-142 | grants the lowest run of n free frames and takes exactly it; panics exactly when there is none; free plus granted minus returned is unchanged |
| FrameAllocator.Pmm.Free | kernel/src/mem/pmm.c:144-167 | gives back the frames up to the first one that is free already, and only those; an unaligned address gives back nothing; the balance is unchanged |
| AddressSpaces.Memory.CloneTable | kernel/src/mem/paging.c:285-303 | one page table: every present entry gets a new frame with the same flags and bytes |
| AddressSpaces.Memory.Clone | kernel/src/mem/paging.c:268-313 | the copy reads the same bytes with the same flags at every user address, owns its frames alone, took them all from the free set, changes nothing outside it and shares the kernel half |
| AddressSpaces.Memory.Release | kernel/src/mem/paging.c:315-332 | every frame the user half owns becomes free and no other |
| AddressSpaces.Memory.CloneAndRelease | kernel/src/mem/paging.c:268-332 | cloning and releasing the copy restores exactly the previous set of free frames |
| AddressSpaces.FramesDistinct | kernel/src/mem/paging.c:285-303 | no two places of a directory that owns its frames refer to the same frame |
| AddressSpaces.WritesIsolated | kernel/src/mem/paging.c:268-313 | a write to a page the directory does not refer to, such as one of its copy, changes nothing it reads |
| WaitLaws.SelectRegisters | kernel/src/int/syscall.c:1004-1031 | after select the caller sleeps and stands once in each queue it named and in no other |
| WaitLaws.SleepRegisters | kernel/src/proc/process.c:539-547 | after sleep_on_queue the caller sleeps and stands once in that queue and in no other |
| WaitLaws.SingleReleases | kernel/src/proc/process.c:560-592 | a single wake-up makes the last waiter runnable and takes it out of every queue |
| WaitLaws.AllReleases | kernel/src/proc/process.c:594-604 | a wake-up of a whole queue does that for everybody in it |
| WaitLaws.SelectIsReleased | kernel/src/int/syscall.c:1004-1031 | whoever sleeps in select is released by a wake-up of any queue it named |
| WaitLaws.SelectKeepsFlags | kernel/src/proc/process.c:573-592 | the select form of a wake-up marks nobody as interrupted |
| Scheduler.MarkReadySpec | kernel/src/proc/process.c:105-114 | the process leaves every queue it waits in, on both sides, joins the ready queue at the back, and is marked interrupted exactly when it still held locks |
| Scheduler.InvalidateKeeps | kernel/src/proc/process.c:609-615 | emptying the owners list keeps queues and owners lists in step |
| Scheduler.WakeSingleSpec | kernel/src/proc/process.c:560-571 | wakes exactly the last waiter, nobody else, and marks it interrupted exactly if it waited elsewhere too or was marked before |
| Scheduler.WakeSingleSelectSpec | kernel/src/proc/process.c:573-592 | the same for a waiter that selected on several queues: it leaves all of them and is not marked interrupted |
| Scheduler.WakeAllSpec | kernel/src/proc/process.c:594-604 | the queue ends empty, all its waiters are ready, nobody else is touched |
| Scheduler.SwitchSpec | kernel/src/proc/process.c:237-275 | runs the front of the ready queue, or idle if it is empty |
| Scheduler.YieldSpec | kernel/src/proc/process.c:277-305 | the current process goes to the back of the ready queue |
| Scheduler.AsleepSpec | kernel/src/proc/process.c:539-547 | registering with queues, falling asleep and yielding keeps all three facts |
| Scheduler.OwnEachKeeps | kernel/src/proc/process.c:526-529 | registering with any number of queues keeps queues and owners lists in step |
| Scheduler.ForkSpec | kernel/src/proc/process.c:325-391 | the child joins the ready queue at the back |
| Scheduler.KillSpec | kernel/src/int/syscall.c:315-321 | a signal sent through kill makes a live target runnable, marks it interrupted if it waited, touches nobody else, and keeps all three facts |
| Scheduler.ExitSpec | kernel/src/proc/process.c:629-671 | the process that exits is finished and waits nowhere, its parent is runnable, another process runs |
| Scheduler.DestroySpec | kernel/src/proc/process.c:741-751 | removing a finished process keeps all three facts |
| SchedulerRuns.StepKeeps | kernel/src/proc/process.c:105-114 | every step keeps all three facts and treats the ready queue as a queue: a switch takes the front, everything else appends |
| SchedulerRuns.RunKeeps | kernel/src/proc/process.c:237-321 | the facts hold throughout every run |
| SchedulerRuns.InvMeaning | kernel/src/proc/process.c:526-627 | process by process: multiplicity in a queue equals multiplicity in the owners list; a runnable process waits nowhere; the ready queue holds it exactly once unless it is current or idle |
| SchedulerRuns.StillQueued | kernel/src/proc/process.c:315-321 | before its turn a process is still queued, one place further for each switch, whatever else happens |
| SchedulerRuns.DispatchedInTime | kernel/src/proc/process.c:237-321 | bounded waiting: the process at index k of the ready queue is dispatched by the (k+1)-th switch |
| ProcessCore.Core.InvalidateLocks | kernel/src/proc/process.c:609-615 | the loop that pops owners: updates the fields in place to exactly the state of the value model |
| ProcessCore.Core.MarkReady | kernel/src/proc/process.c:105-114 | mark_ready on the fields: updates the fields in place to exactly the state of the value model |
| ProcessCore.Core.WakeupQueueSingle | kernel/src/proc/process.c:560-571 | the loop from the back of the queue: updates the fields in place to exactly the state of the value model |
| ProcessCore.Core.WakeupQueueSingleSelect | kernel/src/proc/process.c:573-592 | the loop with select: updates the fields in place to exactly the state of the value model |
| ProcessCore.Core.WakeupQueue | kernel/src/proc/process.c:594-604 | the loop over the whole queue: updates the fields in place to exactly the state of the value model |
| ProcessCore.Core.NextProcess | kernel/src/proc/process.c:315-321 | pops the front or returns idle: the front of the ready queue and the rest of it |
| ProcessCore.Core.Switch | kernel/src/proc/process.c:237-275 | the loop to the first schedulable process: updates the fields in place to exactly the state of the value model |
| ProcessCore.Core.Yield | kernel/src/proc/process.c:277-305 | yield: updates the fields in place to exactly the state of the value model |
| ProcessCore.Core.SleepOnQueue | kernel/src/proc/process.c:539-547 | sleep up to the switch: updates the fields in place to exactly the state of the value model |
| ProcessCore.Core.WakeupOnSignal | kernel/src/proc/process.c:899-903 | wakes a sleeper: updates the fields in place to exactly the state of the value model |
| ProcessCore.Core.Exit | kernel/src/proc/process.c:629-671 | exit up to the switch: updates the fields in place to exactly the state of the value model |
| ProcessRuns.ScanChildren | kernel/src/proc/process.c:691-726 | the first finished child that matches; otherwise no matching child has finished; no child exactly when none matches |
| ProcessRuns.FindChild | kernel/src/proc/process.c:703-726 | the loop over the children computes that scan |
| WaitpidLaws.ReapsExactly | kernel/src/proc/process.c:691-738 | one turn of waitpid takes out of the process table and the tree exactly the first finished child in list order that its argument asks for: that pid, the pid of its absolute value, the group of the caller, or any |
| WaitpidLaws.ReapsSomebody | kernel/src/proc/process.c:703-738 | if such a child exists one is reaped, and only such a child ever is |
| WaitpidLaws.SleepsExactly | kernel/src/proc/process.c:715-737 | with nothing to reap the caller sleeps in waitpid exactly if it has a child that is asked for and did not ask to return at once |
| WaitpidLaws.SpawnHangs | kernel/src/proc/process.c:121-138 | a new process hangs last below its creator, in the group named by the pid of the creator |
| WaitpidLaws.LeaveHandsOver | kernel/src/proc/process.c:645-651 | exit hands its children over to the root, behind those the root has, and moves nobody else |
| ProcessRuns.StepGood | kernel/src/proc/process.c:629-751 | every step, with waitpid, exit, reparenting and the mutex, keeps the process tree, the owner of the mutex, both no-loss facts, and that only a process itself waits in its waitpid queue |
| ProcessRuns.RunGood | kernel/src/proc/process.c:629-751 | the same over whole runs |
| ProcessRuns.MutualExclusion | kernel/src/proc/mutex.c:11-34 | at any scheduling point of any run at most one process is between lock and unlock |
| ProcessRuns.WakeupNotLost | kernel/src/proc/mutex.c:11-34 | if someone waits for the mutex, it is locked or a woken process is runnable inside mutex_lock |
| ProcessRuns.ExitNotLost | kernel/src/proc/process.c:703-738 | no process but the root ever sleeps in waitpid while it has a finished child that matches |
| RootExits.RootMissesExactly | kernel/src/proc/process.c:629-671 | from any good state in which the root misses nothing, a step makes it miss a finished child if and only if it is an exit by a process that is not its child, the root sleeps in waitpid, and the leaver has a finished child that matches |
| RootExits.RunRootSees | kernel/src/proc/process.c:629-738 | in every run without such an exit waitpid loses no exit for the root either |
| RootExits.RootMayMissExit | kernel/src/proc/process.c:629-671 | a run from boot in which exit hands the sleeping root a finished grandchild it waits for |
| MutexTurns.ServedExactly | kernel/src/proc/mutex.c:11-34 | after any run a process whose turn in mutex_lock comes gets the mutex if and only if the last lock turn or unlock of the run, if any, left it free |
| MutexTurns.Dispatched | kernel/src/proc/process.c:237-321 | bounded waiting over whole events: the process at index i of the ready queue runs after the (i+1)-th switch, still where it was in its code |
| MutexTurns.WokenServedExactly | kernel/src/proc/mutex.c:11-34 | the waiter an unlock wakes runs after as many switches as there were ready processes, and one more, and then gets the mutex if and only if no lock turn since is left without an unlock |
| MutexStarvation.WaiterMayStarve | kernel/src/proc/mutex.c:11-34 | for every n a run from boot with n unlocks in which each unlock wakes the same waiter, it is still waiting at the end, and at no point of the run does it hold the mutex |
| RingBuffer.RunInOrder | kernel/src/util/types/ringbuffer.c:63-101 | any interleaving of reads, writes and signals: bytes come out in the order written, and readers and writers never sleep together |
| RingBuffer.StepJustified | kernel/src/util/types/ringbuffer.c:63-101 | a turn keeps "sleeping readers mean empty, sleeping writers mean full" exactly when the request is not an empty one on a buffer that could serve it |
| RingBuffer.RunJustified | kernel/src/util/types/ringbuffer.c:63-101 | with non-empty requests that law holds throughout every run |
| RingBuffer.EmptyReadSleeps | kernel/src/util/types/ringbuffer.c:83-101 | a read of zero bytes sleeps next to a byte that is there |
| RingBuffer.Ring.ReadAvailable | kernel/src/util/types/ringbuffer.c:27-36 | is the number of bytes buffered |
| RingBuffer.Ring.WriteAvailable | kernel/src/util/types/ringbuffer.c:38-47 | the two counts add up to size - 1 |
| RingBuffer.Ring.Write | kernel/src/util/types/ringbuffer.c:63-81 | one turn on the circular array is the turn of the bounded FIFO |
| RingBuffer.Ring.Read | kernel/src/util/types/ringbuffer.c:83-101 | one turn on the circular array is the turn of the bounded FIFO |
| RingBuffer.WriteTurnQueues | kernel/src/util/types/ringbuffer.c:63-81 | a write turn stores as much as fits, wakes the readers, and queues its caller exactly when it stored nothing |
| RingBuffer.ReadTurnQueues | kernel/src/util/types/ringbuffer.c:83-101 | a read turn takes as much as there is, wakes the writers, and queues its caller exactly when it took nothing |
| LineDiscipline.RawPassesThrough | kernel/src/dev/tty.c:185-312 | with no flag set that changes a byte, every typed sequence arrives as it is |
| LineDiscipline.RawFlags | kernel/src/dev/tty.c:200-235 | what each input flag does to one byte in raw mode |
| LineDiscipline.EditingFlags | kernel/src/dev/tty.c:250-280 | what the local flags do to the editing keys in canonical mode |
| LineDiscipline.QuoteAndCase | kernel/src/dev/tty.c:185-248 | a quoted byte is taken as it is, the quote key only arms the quote, and letters are lowered under their flags |
| LineDiscipline.SettingsDeliver | kernel/src/dev/tty.c:402-409 | leaving canonical mode delivers the pending line and nothing else; other changes deliver and drop nothing |
| LineDiscipline.CanonicalStep | kernel/src/dev/tty.c:185-312 | in canonical mode a byte hands over the whole line, closed by the line end if it is one, or nothing |
| LineDiscipline.NothingBeforeCommit | kernel/src/dev/tty.c:185-312 | nothing is delivered over any input without a newline, end-of-line or end-of-file key |
| LineDiscipline.TypedKeeps | kernel/src/dev/tty.c:185-312 | one byte, under any settings, keeps delivered and pending bytes in typed order |
| LineDiscipline.SettingsKeep | kernel/src/dev/tty.c:402-409 | a change of settings keeps the state in order exactly when it does not leave canonical mode inside a quote |
| LineDiscipline.RunKeepsOrder | kernel/src/dev/tty.c:185-409 | typed order over any run of input and changes of settings that never leave canonical mode inside a quote |
| LineDiscipline.LeavingKeepsOrder | kernel/src/dev/tty.c:402-409 | leaving canonical mode keeps typed order, whatever is typed afterwards, if and only if no quoted byte is outstanding |
| LineDiscipline.Overtaken | kernel/src/dev/tty.c:185-198 | the failing input: the outstanding byte goes into the line buffer in raw mode and the next byte overtakes it |
| LineEditor.DriverIsEditor | kernel/src/dev/tty.c:452-473 | with the default settings, for every typed sequence, the bytes delivered are exactly the edited lines of an editor that cuts the input at line ends and edits each piece on its own |
| LineEditor.KillForgets | kernel/src/dev/tty.c:273-280 | everything typed on a line before an unquoted kill is irrelevant |
| LineEditor.RuboutUndoes | kernel/src/dev/tty.c:148-174 | typing a byte and rubbing it out changes nothing if and only if the line has room for it |
| LineEditor.WholeWords | kernel/src/dev/tty.c:255-265 | what word erase leaves ends in a space or is empty, and no space is erased |
| TtyDevice.Device.Erase | kernel/src/dev/tty.c:148-167 | the loop drops the last n bytes, or all |
| TtyDevice.Device.EraseWord | kernel/src/dev/tty.c:255-265 | the loop erases back to the last space |
| TtyDevice.Device.LineFlush | kernel/src/dev/tty.c:176-183 | the loop delivers the whole line in order and empties it |
| TtyDevice.Device.ProcessInput | kernel/src/dev/tty.c:185-312 | one byte on the line buffer is one step of the line discipline |
| TtyDevice.Device.WriteMaster | kernel/src/dev/tty.c:336-344 | a whole write is the same steps in order |
| TtyDevice.Device.SetAttributes | kernel/src/dev/tty.c:402-409 | TCSETS on the device is the change of settings of the line discipline |
| TtyInput.RoomForAll | kernel/src/util/types/ringbuffer.c:63-81 | bytes written one by one go in without a sleep if and only if the ring has room for all of them, and then in order |
| TtyInput.TypedFits | kernel/src/dev/tty.c:176-312 | one typed byte is delivered without a sleep if and only if the ring has room for what it hands over |
| TtyInput.FullLineSleeps | kernel/src/dev/tty.c:475-478 | even on an empty ring a typed byte puts the writer to sleep exactly when it commits a full line: the ring has one slot fewer than the line |
| FlushRace.IntactExactly | kernel/src/dev/tty.c:169-183 | a flush that sleeps while another writer types: however they interleave, the finished flush has delivered its line intact if and only if no byte was typed at a point between those already read and the end of the line |
| FlushRace.HitsInside | kernel/src/dev/tty.c:169-174 | that point, told from the counts alone |
| FlushRace.TypedIntoFlush | kernel/src/dev/tty.c:169-183 | a byte typed while the second of three bytes is being delivered replaces the third |
| ResizeProtocol.StepGood | libs/libcompose/src/compose.c:556-607 | every step of compositor and owner, the two writes to shared memory included, keeps: at most one resize in flight, aimed at a known size, and none in flight means the window has the last requested size |
| ResizeProtocol.RunGood | libs/libcompose/src/compose.c:556-607 | the same over every run |
| ResizeProtocol.RequestSends | libs/libcompose/src/compose.c:556-583 | a request sends one event, unless a resize is under way, the window has that size already, or nobody owns it |
| ResizeProtocol.ConfirmationSends | libs/libcompose/src/compose.c:585-607 | a confirmation gives the window the size in the shared context and starts the delayed resize if it differs |
| ResizeProtocol.HonoursExactly | libs/libcompose/src/compose.c:556-607 | every run honours requests if and only if the window has an owner with an open graphics context and was created with neither resize flag |
| ResizeProtocol.SettlesInTen | libs/libwidgets/src/widget.c:130-157 | however many requests came in, ten further steps bring the window to the last size requested |
| ResizeProtocol.Window.StartResize | libs/libcompose/src/compose.c:556-583 | the fields change as in the protocol |
| ResizeProtocol.Window.ApplySize | libs/libcompose/src/compose.c:585-607 | the fields change as in the protocol, a delayed resize started included |
| ResizeProtocol.Window.HandleRequest | libs/libcompose/src/request.c:30-37 | first stage of a request: the protocol step, which keeps the invariant |
| ResizeProtocol.Window.HandleConfirmation | libs/libcompose/src/request.c:30-40 | second stage: the protocol step, which keeps the invariant |
| ResizeProtocol.Window.AnswerEvent | libs/libwidgets/src/widget.c:130-157 | the owner takes the event, rewrites the shared size and confirms: exactly the four owner steps of the protocol, which keep the invariant |
| StableSort.SortOrders | types/src/list.c:114-127 | the result is sorted, for any comparison that is a strict weak order |
| StableSort.SortMembers | types/src/list.c:114-127 | the result is a permutation |
| StableSort.SortIsStable | types/src/list.c:114-127 | elements that compare equal keep their order |
| StableSort.WithoutSort | types/src/list.c:114-127 | sorting and leaving an element out commute |
| StableSort.SinkKey | types/src/list.c:118-125 | the inner loop moves one element to its place, in place |
| StableSort.ListSort | types/src/list.c:114-127 | the two loops compute the sort, in place, for any comparison |
| Stacking.RestackTouchesOne | libs/libcompose/src/compose.c:752-758 | with all other lists sorted, restacking a whole subtree changes one list |
| Stacking.MoveKeeps | libs/libcompose/src/compose.c:511-537 | any move, with any flags, keeps every sibling list sorted, the tree intact and the order of all other windows |
| Stacking.RaiseKeeps | libs/libcompose/src/compose.c:760-775 | raise keeps every sibling list sorted and the order of all other windows |
| Stacking.RaiseExact | libs/libcompose/src/compose.c:760-775 | after raise the window is last and the rest unchanged if and only if it was on top already or the topmost height is below INT_MAX |
| Stacking.RaiseAtTheLimit | libs/libcompose/src/compose.c:760-775 | a concrete desk on which raise does not raise |
| Stacking.LimitIsReached | libs/libcompose/src/compose.c:511-775 | four requests from the empty desk lead to that desk |
| Stacking.ClientRaiseExact | libs/libcompose/src/compose.c:409-421 | the raise a client sends, a move to (-1, -1, -1), puts the window last if and only if it is last already, or it does not stand there and the topmost height is below INT_MAX |
| Stacking.CreateKeeps | libs/libcompose/src/compose.c:666-675 | creating a window keeps all lists sorted and changes only its parent's |
| Stacking.CreatePlaces | libs/libcompose/src/compose.c:666-675 | the new window goes exactly above the siblings of height zero or less and below the others |
| Stacking.AlwaysSorted | libs/libcompose/src/compose.c:511-775 | after any sequence of create, move and raise every sibling list is sorted by height |
| WindowPlaces.MoveLands | libs/libcompose/src/compose.c:511-537 | each coordinate the mask names is taken from the request and the others stay; no other window moves |
| WindowPlaces.MoveStays | libs/libcompose/src/compose.c:512-516 | a move to the place the window stands at does nothing, whatever its flags |
| WindowPlaces.SunkRaises | libs/libcompose/src/compose.c:533-539 | the flag that asks to sink a window raises it |
| WindowPlaces.LiftSorts | libs/libcompose/src/compose.c:526-531 | a change of height sorts the list of the window by the new heights and keeps the order of the others |
| WindowPlaces.RaiseStands | libs/libcompose/src/compose.c:760-775 | raise keeps x and y and takes the height above the topmost, or changes nothing |
| WindowPlaces.CreateStands | libs/libcompose/src/compose.c:623-675 | a new window stands where it was asked for at height zero, below the parent it named; all others stay |
| Compositor.Server.Restack | libs/libcompose/src/compose.c:752-758 | the recursion sorts exactly the lists of the window and of all below it |
| Compositor.Server.Raise | libs/libcompose/src/compose.c:760-775 | raise on the window table is raise of the value model |
| Compositor.Server.MoveTo | libs/libcompose/src/compose.c:511-537 | move on the window table is move of the value model |
| Compositor.Server.CreateWindow | libs/libcompose/src/compose.c:666-675 | create on the window table is create of the value model |
| EntropyCoding.CodesAgree | libs/libjpeg/src/jpeg.c:211-230 | the decoder's running subtraction is the code table of Annex C of ITU-T T.81, for every table of code lengths |
| EntropyCoding.SymbolRoundTrip | libs/libjpeg/src/jpeg.c:211-230 | for every table with well-formed code lengths each canonical code decodes to its symbol and exactly its bits are consumed |
| EntropyCoding.TakesBack | libs/libjpeg/src/jpeg.c:203-209 | reading n bits gives back the number they were made of |
| EntropyCoding.MagnitudeRoundTrip | libs/libjpeg/src/jpeg.c:150-157 | magnitude decoding inverts magnitude coding, for every category up to 30 |
| EntropyCoding.Unstuffs | libs/libjpeg/src/jpeg.c:178-201 | the reader sees the bits of the bytes before stuffing, then whatever follows |
| EntropyCoding.StreamRoundTrip | libs/libjpeg/src/jpeg.c:178-201 | bits packed, padded and stuffed are read back, whatever follows in the file |
| BlockCoding.RunsRoundTrip | libs/libjpeg/src/jpeg.c:256-272 | decoding run-length coded coefficients gives them back, long runs of zeros included |
| BlockCoding.BlockRoundTrip | libs/libjpeg/src/jpeg.c:249-276 | decoding a coded block gives back its 64 coefficients and leaves exactly what follows |
| BlockCoding.ScanRoundTrip | libs/libjpeg/src/jpeg.c:292-320 | the same for any number of blocks of three interleaved components with their predictions |
| BlockCoding.FileRoundTrip | libs/libjpeg/src/jpeg.c:292-320 | the same from the stuffed bytes of the file |
| ScanCoding.ScanInverts | libs/libjpeg/src/jpeg.c:292-320 | decoding inverts a scan written without a decoder state: block k has the tables of component k modulo 3 and is predicted from block k - 3 |
| ScanCoding.FileInverts | libs/libjpeg/src/jpeg.c:292-320 | the same from the stuffed bytes of the file |
| JpegReader.ParseData | libs/libjpeg/src/jpeg.c:292-320 | if the file holds the coding of n blocks at the start of the data, these are the blocks that come out |
| JpegReader.BitStream.GetBit | libs/libjpeg/src/jpeg.c:178-201 | returns and removes the first unread bit, zero for ever past the end |
| JpegReader.BitStream.GetBitN | libs/libjpeg/src/jpeg.c:203-209 | the loop reads n bits, in 32-bit arithmetic |
| JpegReader.BitStream.HuffmanGetCode | libs/libjpeg/src/jpeg.c:211-230 | the loop returns the symbol and consumes its code, or -1 after sixteen bits |
| JpegReader.BitStream.ReadBlock | libs/libjpeg/src/jpeg.c:249-276 | the loop computes the block decoder of the value model |
| JpegReader.BitStream.ReadScan | libs/libjpeg/src/jpeg.c:292-320 | the loops compute the scan decoder of the value model |
| Ext2Reads.ReadIsExact | modules/ext2/main.c:380-423 | a read returns exactly the clipped slice of the file if and only if offset plus size does not wrap round 32 bits into the file, or the file fills its last block and has no block after it |
| Ext2Reads.OverlongRead | modules/ext2/main.c:385-390 | a two-byte file of which a read at offset 1 returns more than one byte |
| Ext2Reads.RightBlock | modules/ext2/main.c:300-325 | the block number times block size is taken in 32 bits: the right block is read, whatever the device holds, if and only if that product stays below 4 GiB |
| Ext2Reads.EveryBlockReached | modules/ext2/main.c:300-325 | every block of a device is read from its own place if and only if the device is no larger than 4 GiB |
| Ext2Reads.FourGibRead | modules/ext2/main.c:300-325 | with blocks of 1 KiB, block 0x400000 passes the guard and reads as block 0 |
| Ext2Reads.PlainIsSlice | modules/ext2/main.c:399-420 | block-wise copying is a slice of the file's blocks |
| Ext2Reads.FlatDrop | modules/ext2/main.c:392-394 | offset / block size and offset % block size name the same place |
| Ext2Layout.PointerIsLaidOut | modules/ext2/main.c:331-372 | if the first twelve block numbers stand in the inode and the others as little-endian words at the start of the indirect block, block i of the file is the i-th of them |
| Ext2Layout.BytesAreJoined | modules/ext2/main.c:380-423 | the bytes of a file so laid out are those blocks joined, cut at its size |
| Ext2Layout.ReadsLayout | modules/ext2/main.c:380-423 | a read whose offset plus size does not wrap into the file returns exactly the clipped part of the joined blocks |
| Ext2Layout.ReadFile | modules/ext2/main.c:380-423 | so does the driver, whatever it has cached |
| Ext2Reads.Driver.TryCached | modules/ext2/main.c:228-242 | a hit is the block on the device, and moves to the front; a miss means no entry has that number |
| Ext2Reads.Driver.CacheBlock | modules/ext2/main.c:284-298 | added at the front, at most 2048 kept |
| Ext2Reads.Driver.ReadBlock | modules/ext2/main.c:300-329 | on a device of at most 4 GiB, the block on the device, whatever was cached, read ahead or evicted before; an invalid number leaves the buffer alone |
| Ext2Reads.Driver.BlockFromOffset | modules/ext2/main.c:366-378 | the block pointer, direct or single indirect |
| Ext2Reads.Driver.ReadContents | modules/ext2/main.c:380-423 | after any history of reads, the same bytes as a plain read without a cache |
| Linker.Loader.IsLoaded | user/ld/ld.c:60-68 | true exactly when the name is in the list |
| Linker.Loader.LoadObject | user/ld/ld.c:379-393 | terminates on cyclic graphs; what it adds has all it needs loaded; a failure comes from a name that cannot be loaded |
| Linker.Loader.LoadLibrary | user/ld/ld.c:423-440 | on success the library is loaded and what was added has all it needs loaded; a failure comes from a name that cannot be loaded |
| Linker.Loader.LoadExec | user/ld/ld.c:442-458 | succeeds if and only if everything reachable can be loaded; then the list is duplicate-free, starts with the executable, equals the reachable set, and is in depth-first preorder: each entry is the first open need of the latest object that has one |
| Linker.OrderIsDetermined | user/ld/ld.c:379-393 | two lists in that order with the same first entry agree as far as they go |
| Linker.ClosedReach | user/ld/ld.c:379-393 | a list closed under dependencies holds everything reachable |
| Linker.GrownReach | user/ld/ld.c:379-393 | everything in the list is reachable |
| Division.DivMod | libc/src/udivmoddi4.c:3-34 | num = quot * den + rem with rem < den for every 64-bit num and non-zero den; traps exactly on zero |
| Division.Doubles | libc/src/udivmoddi4.c:17-20 | no bit of the divisor or the quotient bit leaves the word on the way up |
| Division.Halves | libc/src/udivmoddi4.c:22-29 | every shift up is undone exactly on the way down |

## Left out

Contracts narrower than the source:

- KernelHeap.Heap.Malloc: requests of zero bytes are excluded, because they break the block chain; running out of physical memory while the heap grows, the usage counters and `calloc` are not modelled. Sizes are unbounded numbers: a request so large that the 32-bit growth test wraps ends in a panic in the source as well.
- HeapBlocks.PairIsReachable: the block list as a value has no end of the heap area, which a large enough request meets.
- KernelHeap.Heap.Grow: the sum that is compared with the end of the heap area is not taken in 32 bits; where it wraps, from about 144 MB on, the source passes the test and panics while mapping, where the model refuses and malloc panics.
- KernelHeap.Heap.Free: a pointer into the heap that is not the start of a block is excluded.
- KernelHeap.Heap.Realloc: takes a pointer that is in use; a null or foreign pointer is excluded.
- KernelHeap.Heap.Valloc: alignments are powers of two, as the masking in the source needs, and the request does not wrap; KernelHeap.VallocFits says what a wrap does.
- FrameAllocator.Pmm.AllocFrames: the bitmap has at most 2^15 words, so that every frame has a 32-bit address; marking frames as taken at boot is not modelled.
- AddressSpaces.Memory.Clone: user half and 4 KB pages only; the temporary kernel mappings used to reach a frame are abstracted to direct access, and growth of the kernel heap during a clone is not counted.
- RingBuffer.Ring.Write: one turn of the loop between two sleeps; the bytes of a call that a signal interrupts are those of its turns so far.
- LineDiscipline.TypedKeeps: echo and output processing are not modelled.
- TtyDevice.Device.LineFlush: the stream it delivers into is unbounded; when the real ring has room is TtyInput.TypedFits, what another writer does meanwhile is FlushRace.IntactExactly, and a byte lost to a wait that a signal interrupts is not modelled.
- FlushRace.IntactExactly: the other writer types ordinary bytes; a second flush inside the first is not modelled.
- Stacking.MoveKeeps: the move event sent to the client and the list of all windows, which is sorted on creation only, are not modelled; window ids do not wrap.
- EntropyCoding.MagnitudeRoundTrip: category zero shifts by minus one in the source; the model takes the shift count modulo 32, as the processor does.
- JpegReader.BitStream.GetBit: a byte 0xFF at the very end of the data makes the source look one byte further; either answer ends the stream, so the model looks no further.
- Ext2Reads.Driver.ReadBlock: the device is a sequence of whole blocks that is not written and is no larger than 4 GiB (Ext2Reads.RightBlock says what happens beyond), and a block number it does not have but the superblock admits is excluded; read-ahead is counted in blocks.
- Ext2Reads.ReadIsExact: files whose blocks all have non-zero pointers within the direct and single indirect range.
- Linker.Loader.LoadExec: a library is a name with the names it needs; an object without a dynamic section is excluded.

Parts of the repository that are not modelled:

- Timed sleeps and the sleep queue, whose insertion does not keep the order its wake-up relies on.
- The default stop action of a signal, which marks the current process sleeping without a queue and lets it run on until the next switch.
- Freeing a wait queue that still has waiters, and signals to finished processes that do not come through `kill`.
- The search for virtual addresses in kernel mappings and `mmap`; mapping and unmapping single pages.
- ext2 writing, the inode cache, double and triple indirect blocks, directories.
- `dup2`, tmpfs, sockets, pipes, buffered file streams.
- The user-space heap, which grows through `mmap` and is not contiguous.
- Floating point: the inverse transform, colour conversion, number formatting; JPEG segment parsing.
- Symbol lookup, relocation and initialisers of the dynamic linker.
- Window removal, focus, grabs, drawing, widgets other than their answer to a resize.
- Drivers, boot, descriptor tables, assembly stubs, shell and other user programs.
