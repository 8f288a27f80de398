# A model of the Fluke kernel and its libraries, with proofs

These Dafny modules model the parts of the repository whose correctness is hardest to see from
the code, and prove what the code promises about them. `dafny verify dfyconfig.toml` checks all
of them. Failed assertions and panics are outcomes of the model, so every statement says
when they happen.

- **Threads, messages and scheduling** (`kernel_*.dfy`). `KernelState` is the kernel as a step
  function over its entries: calls, listens, responses, sleeps, interrupt waits, interrupts and
  timer ticks. `KernelInvariant` and `KernelSteps` prove an invariant over all entries,
  `KernelEffects` and `KernelParties` what each entry does to the threads it is about and that it
  loses none, `KernelMessages` what a message leaves in the registers of both parties,
  `KernelTurns` what scheduling makes of every thread, `KernelEntries` what each entry answers,
  from the registers it came with, and `KernelLatches` that interrupts and waits balance over
  every run; `KernelHistory` ties the state to a history of calls and waits, and `KernelRuns`
  draws the conclusions for every reachable state. `KernelQueue` and `KernelSleep` are the
  intrusive queue and the sleep list with their pointers; `KernelLinks` connects what they do to
  the sequences of the step function. `KernelTree` is the treap of a process's threads.
- **The clock** (`clock.dfy`). Calibration of the tick counter and readings in nanoseconds.
- **Forth** (`forth_*.dfy`). `ForthMachine` is the inner interpreter, `ForthDictionary` the words
  in memory at start-up, `ForthWords` and `ForthCompiler` what the control-flow words lay down,
  `ForthMeaning` the structured meaning and the proof that the code runs as meant, and
  `ForthSession` whole sessions. `ForthCpu` is the interpreter on the processor's registers.
- **Hash table** (`hash_*.dfy`). `HashSlots` is open addressing on values, `HashTable` the table
  in place, with kick-out rehash and backward-shift deletion, for any hash function.
- **Page tables** (`page_*.dfy`). Trees that own their frames (`PageTree`, `PageOps`, `PageHalts`,
  `PageFrames`), address spaces and runs of operations on many of them (`PageSpaces`, `PageClone`,
  `PageRuns`, `PageIsolation`), single addresses (`PageWalk`), the rights conjoined on the way to
  a page (`PageRights`), the code over tables in memory (`PageMemory`, `PageCopies`, `PagePoints`,
  `PageTables`), and the frame allocator linked through the free pages (`PageFree`). The
  translation structure is that of section 5.3 of the AMD64 Architecture Programmer's Manual,
  volume 2.
- **Areas of an address space** (`vm_*.dfy`). The list of areas, the choice of gaps, and both with
  the page tables.
- **The allocator** (`malloc_*.dfy`). Its large bins: bitwise tries and the best-fit search
  (`MallocTrie`, `MallocFit`, `MallocBins`, `MallocLarge`). The heap: chunks with heads and feet
  in memory (`MallocSpans`), all bins and `dv` (`MallocStore`), allocation by splitting
  (`MallocHeap`, `MallocAlloc`, `MallocServe`), freeing with coalescing (`MallocFree`), memory
  below the segment (`MallocGrow`), what each operation keeps and gives (`MallocRuns`), whole runs
  (`MallocHeapRuns`), and the state changed in place (`MallocAllocator`).
- **The first stack of a program** (`exec_stack.dfy`). What `exec` lays down and start-up reads.

`Wrappers` and `Arithmetic` are shared by these.

Six places do not do what their context expects. Each has a concrete counterexample and an exact condition:

- Overwriting a range strictly inside one area links the new area out of order
  (`VmAreas.OverwriteSorted`), after which freeing can miss an area (`VmAreas.FreeMisses`).
- A movable allocation is clamped to the end of the gap without regard to its length, so it can
  overlap the next area (`VmGaps.PlacedSorted`, `VmSpace.Vm.AllocMovable`, `VmGaps.PlacedOverlaps`).
- Shrinking a hash table whose last `realloc` fails loses its entries
  (`HashTable.HashMap.Resize`, `HashTable.LostTable`).
- Chunks of 2^40 bytes and more can get the wrong bin (`MallocBins.IndexExact`,
  `MallocBins.HugeMisplaced`), and then searches can miss them (`MallocLarge.SearchExactly`).
- Unless the frequency divides 10^9 * 2^64 the clock reads some times a nanosecond short
  (`Clock.ExactExactly`, `Clock.SecondShort`).
- The frame allocator links new memory after the page it added last; if that page has been handed
  out since, the new pages are not found (`PageFree.AddExactly`, `PageFree.AddLost`).

## Model

| member | source | states |
|---|---|---|
| `KernelRuns.EveryThreadInOnePlace` | kernel/src/user/ipc.cxx:90-313 | in every reachable state each thread of the map is at exactly one place, and the place matches its state; none floats |
| `KernelRuns.NoneLost` | kernel/src/user/ipc.cxx:90-313 | after any run that does not halt, the threads are exactly the first one and those spawned, each at exactly one place |
| `KernelRuns.RunThreads` | kernel/src/user/ipc.cxx:90-313 | from any state, a run adds the threads it spawns and loses none |
| `KernelEffects.StepSame` | kernel/src/user/ipc.cxx:90-313 | no entry loses a thread on any path, transfer errors included, and only a spawn adds one |
| `KernelRuns.NoCallCycle` | kernel/src/user/ipc.cxx:118-178 | from any thread, following who holds its call ends at a thread that is not calling |
| `KernelRuns.CompletedOnceByHolder` | kernel/src/user/ipc.cxx:260-313 | every completed call was delivered to the thread that completes it, with no other completion in between |
| `KernelRuns.KthCallMeetsKthListen` | kernel/src/user/ipc.cxx:180-258 | on every channel the k-th call is paired with the k-th listen; the state is EMPTY exactly when nobody waits; no waiter has a timeout |
| `KernelRuns.CopiesFit` | kernel/src/user/ipc.cxx:129-170 | no copy of a transfer is longer than either buffer, in any reachable history |
| `KernelRuns.WaitEndsOnce` | kernel/src/user/irq.cxx:34-91 | every end of a timed interrupt wait answers one beginning of it |
| `KernelRuns.TimedWaitState` | kernel/src/user/irq.cxx:48-84 | a thread waits on a line exactly while its wait is open, has a timer, and no interrupt is latched |
| `KernelRuns.ReachableExpiry` | kernel/src/user/schedule.cxx:110-137 | in every reachable state the sleep list is sorted, and expiry wakes exactly the sleepers past their deadline, in order |
| `KernelRuns.ReachableOk` | kernel/src/user/schedule.cxx:139-161 | every reachable state meets the invariant and the history discipline |
| `KernelSteps.StepKeeps` | kernel/src/user/ipc.cxx:118-313 | every kernel entry keeps the invariant, and halts exactly in the listed cases: channel id 0, or a listener that owes a response |
| `KernelEntries.StepDoes` | kernel/src/user/ipc.cxx:180-327 | what every entry answers and leaves, from the registers it came with, in terms that name no part of the step function |
| `KernelSteps.CallTransferKeeps` | kernel/src/user/ipc.cxx:118-178 | a transfer keeps the invariant on every path and halts exactly when its listener owes a response |
| `KernelSteps.TransferErrorKeeps` | kernel/src/user/ipc.cxx:90-98 | a failed transfer never halts and keeps the invariant |
| `KernelParties.TransferErrorDoes` | kernel/src/user/ipc.cxx:90-98 | both parties of a failed transfer keep their registers but for the error, the guilty one its own and the other EIPCIO; both are ready or run; nobody else changes but by being readied or run |
| `KernelParties.TransferDoes` | kernel/src/user/ipc.cxx:118-178 | a transfer gives both parties what the mode, the lengths and the bounds of user memory decide, field by field: the listener runs at its callback with the message, or each has its error |
| `KernelMessages.RegisterMessage` | kernel/src/user/ipc.cxx:118-134 | register by register: a register message gives the listener the caller's arguments, its own result and the callback, and leaves the caller's registers |
| `KernelMessages.StringMessage` | kernel/src/user/ipc.cxx:136-151 | a string is refused with E2BIG exactly if it is longer than the buffer and may not be cut; otherwise the smaller length is copied, or who holds the bad buffer gets EFAULT and the other EIPCIO |
| `KernelMessages.WriteMessage` | kernel/src/user/ipc.cxx:153-162 | a write copies the smaller length in the write mode, and the caller may get no string back |
| `KernelMessages.ReadMessage` | kernel/src/user/ipc.cxx:164-168 | a read tells the listener how much is wanted, in the read mode, and the caller waits for a string |
| `KernelSteps.CallServerKeeps` | kernel/src/user/ipc.cxx:180-217 | a call keeps the invariant, and halts exactly when the first listener owes a response |
| `KernelParties.CallServerDoes` | kernel/src/user/ipc.cxx:180-217 | a call that does not halt is refused for lack of a route, or takes the first listener off the channel into a transfer, or is last on the channel, which is then CALLING |
| `KernelEntries.CallDoes` | kernel/src/user/ipc.cxx:70-88 | which calls are refused, with EPERM for the system class or EFAULT for a string outside user memory, and the mode of the others |
| `KernelEntries.HandleDoes` | kernel/src/user/ipc.cxx:316-327 | reads and writes go in their own modes, or fail with EFAULT if the buffer, of 2^63 - 1 bytes at most, is not in user memory |
| `KernelSteps.ListenKeeps` | kernel/src/user/ipc.cxx:219-258 | a listen keeps the invariant, and halts exactly for channel id 0 or when a caller waits for a thread that owes a response |
| `KernelParties.ListenDoes` | kernel/src/user/ipc.cxx:219-258 | a listen that does not halt is refused for a channel that does not exist, or takes the first caller off the channel into a transfer in that caller's mode, or is last on the channel, which is then LISTENING |
| `KernelSteps.PopPartnerKeeps` | kernel/src/user/ipc.cxx:201-206 | the first waiter of a channel leaves it, with every list and the channel's state exact |
| `KernelSteps.RespondKeeps` | kernel/src/user/ipc.cxx:268-313 | a response never halts and keeps the invariant, with or without a string |
| `KernelParties.RespondDoes` | kernel/src/user/ipc.cxx:268-313 | a response without a caller is refused; otherwise caller and responder get the answer or the error that the flags, the lengths and the copy decide, and the responder holds no caller any more |
| `KernelSteps.CreateServerKeeps` | kernel/src/user/ipc.cxx:406-432 | creating a server never halts and keeps the invariant |
| `KernelParties.CreateServerDoes` | kernel/src/user/ipc.cxx:406-432 | a server with too high a channel is refused; a new one has its transfers and empty channels only, and nothing else changes |
| `KernelSteps.IrqControlKeeps` | kernel/src/user/irq.cxx:34-68 | a control call never halts and keeps the invariant |
| `KernelEntries.IrqControlDoes` | kernel/src/user/irq.cxx:34-68 | a latched interrupt is taken and unlatched; a wait that may not last answers EAGAIN; any other is last on the line, armed, with EAGAIN as its result should it expire; no other op changes anything |
| `KernelLatches.OneWaitEach` | kernel/src/user/irq.cxx:34-84 | over every run from the start, each interrupt of a line ended one wait with success, or answered one at once, or is latched, or came while another was: the four add up exactly |
| `KernelLatches.RunCounts` | kernel/src/user/irq.cxx:34-84 | the same balance for every run from any state of the invariant, with what was latched before |
| `KernelSteps.ReceiveIrqKeeps` | kernel/src/user/irq.cxx:70-84 | an interrupt never halts the kernel and keeps the invariant |
| `KernelParties.ReceiveIrqDoes` | kernel/src/user/irq.cxx:70-84 | an interrupt wakes the first waiter with result 1 and readies it last, or is latched exactly when there is none |
| `KernelEntries.InterruptDoes` | kernel/src/user/irq.cxx:70-84 | the entry of an interrupt: the line is served, then the threads are scheduled |
| `KernelSteps.ReleaseIrqKeeps` | kernel/src/user/irq.cxx:86-91 | closing a line never halts and keeps the invariant |
| `KernelParties.ReleaseIrqDoes` | kernel/src/user/irq.cxx:86-91 | closing a line readies all its waiters in order with EBADF, empties its queue, changes nobody else and loses nobody |
| `KernelSteps.SleepKeeps` | kernel/src/user/syscall.cxx:33-42 | sleeping never halts and keeps the invariant |
| `KernelEntries.SleepDoes` | kernel/src/user/syscall.cxx:33-42 | a duration that is not positive is refused; otherwise the thread sleeps, armed for that long from now on the 64-bit clock, with result 0 |
| `KernelSteps.ScheduleKeeps` | kernel/src/user/schedule.cxx:139-154 | scheduling never halts and keeps the invariant |
| `KernelEffects.ScheduleDoes` | kernel/src/user/schedule.cxx:139-154 | the first of the threads ready once the due sleepers have been woken runs; the one that ran, if any, is behind the others with its context saved; with none ready nobody is displaced |
| `KernelTurns.ScheduleTurns` | kernel/src/user/schedule.cxx:110-154 | every thread's record and every line's queue after scheduling, exactly: due timers are off, their threads ready, the one picked runs |
| `KernelSteps.SaveKeeps` | kernel/src/x86_64/cpu.c:104-119 | saving the running thread leaves it the only floating one |
| `KernelSteps.RestoreKeeps` | kernel/src/x86_64/cpu.c:123-138 | restoring the floating thread makes it run and leaves none floating |
| `KernelSteps.AddThreadKeeps` | kernel/src/user/process.cxx:16-66 | adding a thread never halts and keeps the invariant |
| `KernelParties.AddThreadDoes` | kernel/src/user/process.cxx:16-66 | a new thread is ready and last in the run queue, and every other is as it was |
| `KernelInvariant.MakeReadyKeeps` | kernel/src/user/schedule.cxx:19-25 | readying the floating thread queues it once |
| `KernelInvariant.DetachKeeps` | kernel/src/user/thread.cxx:14-38 | taking a thread out of a queue that is no channel's, and off the sleep list, keeps both lists exact |
| `KernelInvariant.WakeAllKeeps` | kernel/src/user/schedule.cxx:102-108 | waking a whole queue never halts, keeps the invariant and leaves the queue empty |
| `KernelParties.WakeAllDoes` | kernel/src/user/schedule.cxx:102-108 | each waiter of the queue is ready with the result given, in the order they waited, all others are as they were, and no thread is lost |
| `KernelInvariant.WakeSleepersKeeps` | kernel/src/user/schedule.cxx:110-137 | expiry keeps the invariant and never reaches its panic |
| `KernelInvariant.WakeSleepersExactly` | kernel/src/user/schedule.cxx:110-137 | expiry removes exactly the due prefix and readies it in order |
| `KernelInvariant.SleepInsert` | kernel/src/user/schedule.cxx:40-59 | arming a timeout keeps the sleep list sorted and exact |
| `KernelHistory.StepLog` | kernel/src/user/ipc.cxx:180-313 | every entry keeps the history and the state tied: pairs, calls in flight and waits |
| `KernelQueue.Queue.Push` | kernel/src/containers/queue.c:24-41 | pushing appends the node to the sequence the links spell |
| `KernelQueue.Queue.Pop` | kernel/src/containers/queue.c:5-22 | popping takes the first node and leaves it unlinked |
| `KernelQueue.Remove` | kernel/src/containers/queue.c:43-59 | removing a node takes out exactly that node, wherever it is |
| `KernelQueue.QueuesDisjoint` | kernel/src/containers/queue.c:24-41 | no node is in two queues |
| `KernelLinks.PushIsEnqueue` | kernel/src/containers/queue.c:24-41 | the list after a push is the queue after the step function has appended the thread |
| `KernelLinks.PopIsDequeue` | kernel/src/containers/queue.c:5-22 | the same for a pop and the first thread |
| `KernelLinks.RemoveIsUnlink` | kernel/src/containers/queue.c:43-59 | the same for a removal and the thread taken out |
| `KernelSleep.SleepList.SetTimeout` | kernel/src/user/schedule.cxx:40-59 | the sleeper goes after those whose deadline is no later; the list stays sorted with exact back pointers |
| `KernelSleep.SleepList.Cancel` | kernel/src/user/thread.cxx:29-38 | cancelling takes out exactly that sleeper through its back pointer |
| `KernelSleep.SleepList.WakeSleepers` | kernel/src/user/schedule.cxx:110-137 | exactly the prefix of sleepers past their deadline leaves the list |
| `KernelLinks.SetTimeoutIs` | kernel/src/user/schedule.cxx:40-59 | the place the walk over the links finds is where the step function inserts by deadline |
| `KernelLinks.CancelIs` | kernel/src/user/thread.cxx:29-38 | the list after a cancellation is the sleep list without the thread |
| `KernelLinks.WakeIs` | kernel/src/user/schedule.cxx:110-137 | the prefix the loop over the links takes off is the one that expiry readies, in its order |
| `KernelTree.Tree.InsertAt` | kernel/src/containers/tree.cxx:58-78 | a new node, with the next priority of the generator, comes next to its parent in the order, which is otherwise kept with all priorities; priorities fall from the root again, and every link agrees with its back link |
| `KernelTree.Tree.Rng` | kernel/src/containers/tree.cxx:11-17 | the generator's next state, and its upper half as a signed number |
| `KernelTree.Tree.RotateUp` | kernel/src/containers/tree.cxx:19-56 | turning a node up while its priority is the higher one ends with priorities in order and the same left-to-right order |
| `KernelTree.Tree.Remove` | kernel/src/containers/tree.cxx:119-184 | a removal takes exactly the one node out of the order and keeps the rest, the priorities and the links |
| `KernelTree.Tree.Begin` | kernel/src/containers/tree.cxx:186-200 | the first node of the order, or none |
| `KernelTree.Tree.Next` | kernel/src/containers/tree.cxx:202-211 | the node after in the order, or none after the last: the climb ends because the root is marked as a left child |
| `KernelTree.Tree.InsertByAddress` | kernel/src/user/process.cxx:29-42 | adding a thread keeps the tree sorted by address |
| `KernelTree.RotateOk` | kernel/src/containers/tree.cxx:19-56 | a rotation keeps the left-to-right order and all links, at any place of the tree and on either side |
| `KernelTree.AttachOk` | kernel/src/containers/tree.cxx:58-78 | a leaf on either side of a node with none there |
| `KernelTree.LeftOk` | kernel/src/containers/tree.cxx:126-142 | a node with one child at most is replaced by it |
| `KernelTree.TurnDownHeap` | kernel/src/containers/tree.cxx:144-174 | turning a node below the higher of its children leaves only its own edges out of order |
| `KernelTree.OrderExact` | kernel/src/containers/tree.cxx:186-211 | the order has each node of the tree once |
| `Clock.CalibrationDivides` | kernel/src/x86_64/tsc.c:90-100 | for a frequency other than 0 neither division faults, and they give the first 128 bits of the period |
| `Clock.ReadingExact` | kernel/src/x86_64/time.h:22-29 | a reading is the exact number of nanoseconds cut off, or one less |
| `Clock.ExactExactly` | kernel/src/x86_64/time.h:22-29 | every reading is exact if and only if the frequency divides 10^9 * 2^64 |
| `Clock.SecondShort` | kernel/src/x86_64/time.h:22-29 | otherwise a second is read a nanosecond short |
| `Clock.ReadingMono` | kernel/src/x86_64/time.h:22-29 | a later reading is not smaller |
| `Clock.Timer.Calibrate` | kernel/src/x86_64/tsc.c:77-101 | what calibration stores, or the fault of the division by zero |
| `Clock.Timer.Nanoseconds` | kernel/src/x86_64/time.h:22-29 | the word read, with both wrap-arounds |
| `ForthSession.SessionMeans` | kernel/src/forth/startup.4th:26-38 | every session of definitions compiles with the compile-time stack balanced, and every word it defines, on every stack, halts with a stack, goes wrong or runs for ever exactly as its structured meaning says |
| `ForthSession.HaltsExactly` | kernel/src/forth/forth.s:30-34 | the machine halts with a stack if and only if the meaning yields it |
| `ForthSession.GoesWrongExactly` | kernel/src/forth/forth.s:92-204 | the machine underflows if and only if the meaning is stuck |
| `ForthSession.DivergesExactly` | kernel/src/forth/forth.s:184-194 | the machine runs for ever if and only if the meaning never ends |
| `ForthSession.DefineKeeps` | kernel/src/forth/forth.s:464-470 | a definition keeps every earlier word, adds its own, and links the header `:` made |
| `ForthDictionary.StartImage` | kernel/src/forth/forth.s:316-470 | the words as they are assembled are a memory from which every session may start |
| `ForthCompiler.CompileBody` | kernel/src/forth/startup.4th:26-38 | compiling any nest of conditionals and loops lays down its layout with every branch patched and leaves the stack as it was |
| `ForthCompiler.IfDoes` | kernel/src/forth/startup.4th:31-31 | `if` lays down a conditional branch with a hole and leaves the hole |
| `ForthCompiler.ElseDoes` | kernel/src/forth/startup.4th:32-32 | `else` branches over the second arm and fills the hole of `if` |
| `ForthCompiler.WhileDoes` | kernel/src/forth/startup.4th:37-37 | `while` leaves its hole below the loop address |
| `ForthCompiler.RepeatDoes` | kernel/src/forth/startup.4th:38-38 | `repeat` branches back and fills the hole of `while` |
| `ForthCompiler.ReadRuns` | kernel/src/forth/forth.s:443-451 | executing an immediate word while compiling has on the machine the effect the compiler model gives it |
| `ForthWords.WordRuns` | kernel/src/forth/forth.s:281-294 | the threaded code of a control-flow word, run on the machine, does what its body spells |
| `ForthMeaning.RunCode` | kernel/src/forth/forth.s:184-315 | the threaded code of every program runs as the program means, for every amount of fuel |
| `ForthMeaning.RunInvoke` | kernel/src/forth/forth.s:281-294 | a call runs the body and comes back after the call, whether the body ends or exits |
| `ForthMeaning.RunWhile` | kernel/src/forth/startup.4th:35-38 | a while loop on the machine is the while loop meant |
| `ForthCpu.Cpu.RunNext` | kernel/src/forth/forth.s:29-33 | each instruction sequence, with the stack top in a register and frames on the processor stack, does one step of the machine |
| `ForthCpu.Cpu.PlainWord` | kernel/src/forth/forth.s:74-204 | the stack words on registers and memory do what they do on the stack, cell by cell |
| `ForthMachine.PlainExact` | kernel/src/forth/forth.s:74-204 | the cells each stack word leaves: order, arithmetic modulo 2^64 and truth values |
| `ForthMachine.PlainNeeds` | kernel/src/forth/forth.s:74-204 | a stack word underflows exactly if there are fewer cells than it needs |
| `ForthCpu.Cpu.DoColon1` | kernel/src/forth/forth.s:281-288 | entering a word pushes a linked frame |
| `ForthCpu.Cpu.Exit1` | kernel/src/forth/forth.s:290-294 | leaving a word unlinks the frame |
| `HashTable.HashMap.Get` | programs/khashl.h:150-163 | a lookup finds the slot of the key exactly if the map has the key |
| `HashTable.HashMap.Put` | programs/khashl.h:215-239 | an insertion adds the entry, finds it present or fails for memory, in exactly these cases, and keeps the rest; the table doubles exactly when three quarters are used |
| `HashTable.HashMap.Del` | programs/khashl.h:242-257 | a deletion removes exactly the one key |
| `HashTable.HashMap.Resize` | programs/khashl.h:166-212 | a resize keeps exactly the same map, growing or shrinking, unless it loses the table; it loses the table exactly if it shrinks a table with entries and the last realloc fails |
| `HashTable.HashMap.Clear` | programs/khashl.h:141-147 | clearing leaves the empty map |
| `HashTable.Settle` | programs/khashl.h:190-202 | the kick-out loop ends, and every entry it touches has its new place |
| `HashTable.MoveAll` | programs/khashl.h:185-203 | after the in-place rehash every entry is where its new home leads by an unbroken run |
| `HashTable.FindFree` | programs/khashl.h:192-193 | the probe for a free slot ends at the first free slot from the home |
| `HashTable.BitsFor` | programs/khashl.h:168-171 | the number of bits is the least, at least two, that covers the slots asked for |
| `HashTable.FibonacciInRange` | programs/khashl.h:102-102 | the library's hash scaling is one of the hashes everything here is proved for |
| `HashTable.LostTable` | programs/khashl.h:204-208 | a concrete table that loses its entry |
| `HashTable.NextBits` | programs/khashl.h:219-223 | asking for one slot more doubles the table and raises the load bound |
| `HashSlots.MustMoveExact` | programs/khashl.h:250-252 | the three-way comparison of a deletion asks exactly whether the hole lies on the entry's probe run |
| `HashSlots.HoleCloses` | programs/khashl.h:247-254 | when the shifting stops, no entry needs the hole: every run is unbroken without it |
| `HashSlots.HoleMoves` | programs/khashl.h:250-253 | moving an entry into the hole leaves a hole that no scanned entry needs |
| `HashSlots.AbsentBefore` | programs/khashl.h:155-160 | a probe that meets a free slot has shown the key absent |
| `HashSlots.CarryKicks` | programs/khashl.h:192-197 | placing the entry in hand in an occupied slot keeps all entries and brings the occupant into hand |
| `HashSlots.AllSettled` | programs/khashl.h:185-210 | when no old mark is left the new marks index exactly the original entries |
| `PageOps.ApplyLooks` | kernel/src/x86_64/mmu.c:200-303 | assign, clear and edit change exactly the pages of the range, each as the operation says |
| `PageHalts.ApplyHalts` | kernel/src/x86_64/mmu.c:223-234 | an operation panics exactly if it finds a page it may not find or needs more frames than are free |
| `PageFrames.ApplyConserves` | kernel/src/x86_64/mmu.c:200-270 | no operation makes or loses a frame |
| `PageFrames.ApplyTight` | kernel/src/x86_64/mmu.c:257-269 | a table exists only if it has an entry |
| `PageFrames.TightMapped` | kernel/src/x86_64/mmu.c:257-269 | below every table there is a mapped page |
| `PageSpaces.ChangeOk` | kernel/src/x86_64/mmu.c:331-377 | a change of the user half updates exactly its range, conserves frames, and leaves the kernel half |
| `PageSpaces.ChangePanics` | kernel/src/x86_64/mmu.c:331-377 | exactly when a change of the user half panics |
| `PageSpaces.CreateOk` | kernel/src/x86_64/mmu.c:43-53 | a new space maps nothing and takes one frame |
| `PageSpaces.DestroyFrees` | kernel/src/x86_64/mmu.c:55-61 | destroying a space succeeds and frees exactly the frames it owns |
| `PageSpaces.TwoPagesOwned` | kernel/src/x86_64/mmu.c:230-233 | two mapped pages have two frames |
| `PageClone.CloneLooks` | kernel/src/x86_64/mmu.c:305-329 | every page of a clone has the flags and contents of the source's |
| `PageClone.CloneTakes` | kernel/src/x86_64/mmu.c:305-329 | a clone owns exactly the frames it took from the free list |
| `PageClone.CloneHalts` | kernel/src/x86_64/mmu.c:7-12 | cloning panics exactly if fewer frames are free than the source owns |
| `PageRuns.NextKeeps` | kernel/src/x86_64/mmu.c:43-61 | every operation on any of many spaces keeps every frame in exactly one place |
| `PageRuns.RunKeeps` | kernel/src/x86_64/mmu.c:200-270 | so does every run of operations |
| `PageRuns.AllReturned` | kernel/src/x86_64/mmu.c:55-61 | after any run that destroys every space it made, exactly the original frames are free |
| `PageIsolation.FramesDistinct` | kernel/src/mem/pmm.c:45-70 | no frame backs two pages, of one space or of two |
| `PageIsolation.Isolation` | kernel/src/x86_64/mmu.c:436-454 | an operation leaves the map and contents of every other space, and of a space it clones, as they were |
| `PageIsolation.StoreExact` | kernel/src/x86_64/mmu.c:436-454 | a store is seen through its own page only, also after cloning |
| `PageIsolation.CopyExact` | kernel/src/x86_64/mmu.c:436-454 | a clone reads as its source, page by page |
| `PageIsolation.OutsideRange` | kernel/src/x86_64/mmu.c:200-303 | pages of the same space outside the range keep their map and contents |
| `PageIsolation.AssignedZero` | kernel/src/x86_64/mmu.c:229-234 | a page that is assigned reads as zero |
| `PageWalk.WalkExact` | kernel/src/x86_64/mmu.c:130-167 | the four-level walk reads the flat map at every address, with the bits above the 48 it translates ignored |
| `PageWalk.EntryRoundTrip` | kernel/src/x86_64/mmu.c:63-109 | a page-table entry reads back as it was written |
| `PageWalk.EntryClean` | kernel/src/x86_64/mmu.c:63-109 | both cache bits are set or neither, and no bit without a meaning |
| `PageWalk.PointLooks` | kernel/src/x86_64/mmu.c:379-417 | mapping one page maps exactly that page |
| `PageWalk.PointHalts` | kernel/src/x86_64/mmu.c:392-414 | it panics exactly if the page is mapped or frames for its tables are missing |
| `PageWalk.PointConserves` | kernel/src/x86_64/mmu.c:379-417 | it takes exactly the frames of the new tables; the target stays the caller's |
| `PageTables.Mmu.MmuAssign` | kernel/src/x86_64/mmu.c:345-355 | the loops over tables in memory do what the space model says, touch no other frame, and leave the kernel half; the rights the processor finds for a page, over all four entries, are the flags asked for |
| `PageTables.Mmu.MmuClear` | kernel/src/x86_64/mmu.c:357-365 | the same for clearing, after which there are no rights |
| `PageTables.Mmu.MmuEdit` | kernel/src/x86_64/mmu.c:367-377 | the same for editing, with the rights of the new flags |
| `PageTables.Mmu.Assign` | kernel/src/x86_64/mmu.c:200-236 | the recursive loop of assign, at every level |
| `PageTables.Mmu.ClearRange` | kernel/src/x86_64/mmu.c:238-270 | the recursive loop of clear, with its report of an empty table |
| `PageTables.Mmu.EditRange` | kernel/src/x86_64/mmu.c:272-303 | the recursive loop of edit |
| `PageTables.Bounds` | kernel/src/x86_64/mmu.c:208-213 | the loop bounds computed by rounding and shifting are the entries the range touches |
| `PageTables.StaysOk` | kernel/src/x86_64/mmu.c:345-377 | a table stays well formed, so operations can follow one another |
| `PageTables.WalkMemoryExact` | kernel/src/x86_64/mmu.c:130-167 | the walk over memory reads the tree the tables represent |
| `PageRights.RightsExact` | kernel/src/x86_64/mmu.c:130-167 | in a well-formed space the user, write and execute rights conjoined over the entries of a walk are those of the last entry, at every address |
| `PageRights.TablesGrant` | kernel/src/x86_64/mmu.c:62-75 | every entry above the last level is present, writable and for user mode, and nothing else but the frame |
| `PageRights.RightsFollow` | kernel/src/x86_64/mmu.c:331-377 | an operation on the tree changes the conjoined rights of exactly its range |
| `PageTables.Mmu.MmuCreate` | kernel/src/x86_64/mmu.c:43-53 | over memory: a new top-level table is a well-formed empty space that grants nothing, with the kernel half of the current one, touches no other frame, and fails exactly if no frame is free |
| `PageTables.Mmu.MmuDestroy` | kernel/src/x86_64/mmu.c:55-61 | over memory: destroying never panics and gives back exactly the frames the space owns |
| `PageTables.Mmu.MmuClone` | kernel/src/x86_64/mmu.c:436-454 | over memory: fails exactly if fewer frames are free than the space owns; each user page of the copy has the flags, rights and contents of the original's in a frame of its own, the kernel half is the same, and neither the original nor any frame that was not free is written |
| `PageTables.Mmu.Clone` | kernel/src/x86_64/mmu.c:305-329 | the recursive loop of clone does what the tree clone says, at every level, writing only the new table and free frames |
| `PageTables.Mmu.MmuPoint1` | kernel/src/x86_64/mmu.c:379-417 | over memory: exactly the page of the address gets mapped, with the rights asked for over all four entries; it panics exactly if that is mapped or frames for its tables are missing |
| `PagePoints.PointKidsExact` | kernel/src/x86_64/mmu.c:392-414 | the flat map of the whole user half after mapping one page, and exactly when it panics |
| `PageFree.Pmm.Alloc` | kernel/src/mem/pmm.c:45-57 | the free pages linked through their own words: the first one leaves the list the links spell, or there is none; no other page is written |
| `PageFree.Pmm.Free` | kernel/src/mem/pmm.c:59-70 | the page becomes the first of the list the links spell, and no other page is written |
| `PageFree.Pmm.Add` | kernel/src/mem/pmm.c:19-37 | the loop links the pages of the new memory in order; the list is well formed with them last if and only if the page added last before is still the last |
| `PageFree.AddExactly` | kernel/src/mem/pmm.c:24-34 | the links spell the list with the new pages if and only if the tail was its last page, or there was none and the list was empty |
| `PageFree.AddLost` | kernel/src/mem/pmm.c:24-34 | memory added after every page has been handed out is never found |
| `PageFree.SpellsOne` | kernel/src/mem/pmm.c:8-17 | the links spell one list only |
| `VmAreas.ClearExact` | kernel/src/user/vm.cxx:58-114 | clearing removes exactly the range over any mix of overlaps and keeps the list in order |
| `VmAreas.InsertExact` | kernel/src/user/vm.cxx:144-176 | insertion succeeds exactly if the range overlaps nothing, and finds the place that keeps the order |
| `VmAreas.ClearSlot` | kernel/src/user/vm.cxx:58-114 | the slot a clear returns is right whenever the range was not inside one area |
| `VmAreas.ClearSlotInside` | kernel/src/user/vm.cxx:81-87 | it is the slot before the left half when the range was inside one area |
| `VmAreas.OverwriteIn` | kernel/src/user/vm.cxx:213-243 | overwriting gives the range its flags and leaves every other page its own |
| `VmAreas.OverwriteSorted` | kernel/src/user/vm.cxx:213-243 | the list stays in order if and only if the range was not strictly inside one area |
| `VmAreas.FreeMisses` | kernel/src/user/vm.cxx:131-142 | after overwriting inside an area, freeing its first page misses it: a concrete list |
| `VmGaps.ChooseFits` | kernel/src/user/vm.cxx:264-277 | a gap is chosen exactly if one is long enough, and the one chosen is |
| `VmGaps.ChooseNearest` | kernel/src/user/vm.cxx:264-277 | the gap chosen is the nearest to the hint of those long enough: by its begin, the last below or the first above, the lower of two as near |
| `VmGaps.HintExact` | kernel/src/user/vm.cxx:249-250 | a hint in user memory is kept, any other becomes the default address |
| `VmGaps.PlacedSorted` | kernel/src/user/vm.cxx:279-294 | the new area keeps the order if and only if the hint leaves room for the length before the end of the gap |
| `VmGaps.PlacedOverlaps` | kernel/src/user/vm.cxx:279-279 | a concrete hint for which the new area overlaps the next |
| `VmGaps.MergeExact` | kernel/src/user/vm.cxx:116-129 | joining touching areas keeps the order and every page with its flags |
| `VmGaps.MergeSortedExactly` | kernel/src/user/vm.cxx:116-129 | joining leaves the list in order exactly if it was before |
| `VmSpace.Vm.Free` | kernel/src/user/vm.cxx:131-142 | free fails only for bad limits or memory, removes exactly the range, and keeps areas and page tables in agreement |
| `VmSpace.Vm.AllocFixedNoReplace` | kernel/src/user/vm.cxx:191-211 | exactly when it succeeds; then it adds exactly the range and keeps the agreement; every page is mapped iff some access is asked for, for user mode, writable and executable exactly as asked |
| `VmSpace.Vm.AllocFixedOverwrite` | kernel/src/user/vm.cxx:213-243 | exactly when it fails and why; keeps areas and page tables in agreement, and the list in order if and only if the range was not inside an area; every page has exactly the access asked for |
| `VmSpace.Vm.AllocMovable` | kernel/src/user/vm.cxx:245-298 | when it fails; exactly when it panics; the list afterwards is in order if and only if the hint leaves room in its gap, and then there is a disjoint new area in agreement with the page tables, whose pages have exactly the access asked for |
| `VmSpace.Vm.ClearForInsert` | kernel/src/user/vm.cxx:58-114 | the list walk in place |
| `VmSpace.Vm.FindPlace` | kernel/src/user/vm.cxx:155-171 | the search for the place of a new area |
| `VmSpace.Vm.FindGap` | kernel/src/user/vm.cxx:264-274 | the search for a gap |
| `VmSpace.AssignPanics` | kernel/src/user/vm.cxx:207-208 | with areas and page tables in agreement, mapping free pages panics only if frames run out |
| `VmSpace.AssignPanicsExactly` | kernel/src/user/vm.cxx:207-208 | mapping a range panics exactly if it meets an area that maps its pages or frames run out |
| `VmSpace.CloneAgrees` | kernel/src/user/vm.cxx:330-345 | the copied areas describe the cloned page tables |
| `VmSpace.OneArea` | kernel/src/user/vm.cxx:27-38 | an ordered list gives a page at most one set of flags |
| `MallocLarge.LargeBins.FindBest` | system/libc/src/malloc.c:4446-4494 | the loops return what the search means; for requests whose index is right that is the smallest chunk of any bin that fits, or nothing exactly if none fits |
| `MallocLarge.LargeBins.InsertLarge` | system/libc/src/malloc.c:3660-3709 | every bin stays a trie of its own sizes and the bin map exact if and only if the index of the size is right, and then exactly the chunk is added |
| `MallocLarge.LargeBins.UnlinkLarge` | system/libc/src/malloc.c:3728-3797 | removal of a chunk in the bins, of a size whose index is right, keeps this and takes out exactly the chunk |
| `MallocTrie.InsertExact` | system/libc/src/malloc.c:3676-3707 | insertion into one trie |
| `MallocTrie.UnlinkExact` | system/libc/src/malloc.c:3728-3797 | removal from one trie, by chain or by leaf replacement |
| `MallocTrie.ReplaceSizes` | system/libc/src/malloc.c:3741-3757 | replacing a node by a leaf below it keeps the order of bits and loses only its size |
| `MallocFit.DescendBest` | system/libc/src/malloc.c:4455-4478 | the walk by bits with the deepest right subtree passed by comes to the best fit of the bin |
| `MallocFit.WalkBest` | system/libc/src/malloc.c:4489-4497 | the leftmost path of a trie of fitting sizes holds the smallest |
| `MallocBins.IndexExact` | system/libc/src/malloc.c:2849-2861 | the computed index is the bin of the size if and only if the size over 256 fits in 32 bits, or its low 32 bits are 0xc000 at least |
| `MallocLarge.SearchExactly` | system/libc/src/malloc.c:4446-4494 | the search finds the best fit in all valid bins if and only if the index of the request is right |
| `MallocBins.HugeMisplaced` | system/libc/src/malloc.c:2852-2852 | a concrete size the index misplaces, 2^40 |
| `MallocBins.NextBinBest` | system/libc/src/malloc.c:4479-4487 | when the own bin has nothing, the next bin in use holds the best fit |
| `MallocRuns.MallocKeeps` | system/libc/src/malloc.c:4556-4690 | an allocation keeps the heap in order; it fails exactly if no free chunk, top or memory from the system has room, or too much is asked for, and then changes nothing; else it adds one chunk in use, aligned, of the least size for the request or 16 more, and leaves the data of all others |
| `MallocRuns.FreeHeapKeeps` | system/libc/src/malloc.c:4694-4801 | a free keeps the heap in order whatever is beside the chunk, takes exactly it out of use, and leaves the data of all others |
| `MallocRuns.LargeBest` | system/libc/src/malloc.c:4642-4660 | a large request is served from a smallest free chunk that fits |
| `MallocRuns.SmallBest` | system/libc/src/malloc.c:4587-4660 | a small request takes a smallest chunk of the bins, or dv if that fits and every fitting chunk of a bin would leave a rest |
| `MallocRuns.TopBest` | system/libc/src/malloc.c:4670-4680 | when no free chunk fits, the request is cut off the start of a larger top |
| `MallocRuns.RequestExact` | system/libc/src/malloc.c:2239-2248 | the chunk size for a request: the least multiple of 16 from 32 on that leaves 8 bytes for the head, or the word of all ones |
| `MallocHeapRuns.RestGoes` | system/libc/src/malloc.c:4609-4660 | where the rest of a split chunk goes: a small request's becomes dv, whose old chunk goes to its bin; a large one's goes to its bin |
| `MallocServe.SystemSizeExact` | system/libc/src/malloc.c:4064-4066 | how much is asked of the system: the next multiple of 64 KiB with room for the foot of top, or, when that does not fit in a word, too little to be asked for |
| `MallocHeapRuns.EachChunk` | system/libc/src/malloc.c:2133-2168 | each chunk begins where the one before ends; its head has its size, its bit and its predecessor's; a free one has its size after it and chunks in use on both sides |
| `MallocHeapRuns.OnePlace` | system/libc/src/malloc.c:3435-3463 | each free chunk is once in exactly one bin or is dv, and nothing else is in any |
| `MallocHeapRuns.UsedApart` | system/libc/src/malloc.c:2148-2154 | two chunks in use do not overlap and lie below top |
| `MallocHeapRuns.RunKeeps` | system/libc/src/malloc.c:4556-4801 | every run of allocations, frees and users' writes keeps the heap in order |
| `MallocHeapRuns.RunSpares` | system/libc/src/malloc.c:4556-4801 | a chunk in use that a run neither frees nor writes to is there afterwards with the same data |
| `MallocHeapRuns.RunFreesAll` | system/libc/src/malloc.c:4694-4801 | after any run that leaves nothing in use, from an empty heap, all memory is top again and every bin is empty |
| `MallocHeapRuns.AllFreed` | system/libc/src/malloc.c:2157-2164 | with nothing in use everything has been joined to top |
| `MallocHeapRuns.WriteKeeps` | system/libc/src/malloc.c:2116-2131 | no head or foot is in what a user may write |
| `MallocHeapRuns.FreedAgain` | system/libc/src/malloc.c:3582-3598 | freeing a small chunk between chunks in use and asking for as much again gives the same memory, and undoes the free but for the foot in the chunk itself |
| `MallocHeapRuns.TopReturned` | system/libc/src/malloc.c:4745-4753 | freeing what was cut off top gives it back: top and all bins are as they were |
| `MallocFree.FreeKeeps` | system/libc/src/malloc.c:4694-4801 | freeing one chunk of a run: joined with a free neighbour before, after or both, with dv or with top, and filed |
| `MallocRuns.SystemServes` | system/libc/src/malloc.c:4049-4260 | memory from the system, as the first segment or at either end of it, serves the request |
| `MallocRuns.Prepended` | system/libc/src/malloc.c:3952-4002 | memory below the segment: the rest joins the first chunk if that is free, dv or top |
| `MallocStore.Added` | system/libc/src/malloc.c:3570-3806 | putting a chunk in its bin, small or large, adds exactly it |
| `MallocStore.Removed` | system/libc/src/malloc.c:3593-3812 | taking a chunk out of its bin takes out exactly it |
| `MallocStore.LeastLargeExact` | system/libc/src/malloc.c:4517-4550 | the leftmost path of the first tree in use has the smallest large chunk |
| `MallocAlloc.ChooseSmall` | system/libc/src/malloc.c:4587-4641 | which chunk of the bins serves a small request: without rest, else none if dv fits, else the smallest that fits; none means that every fitting one would leave a rest |
| `MallocAlloc.ChooseLarge` | system/libc/src/malloc.c:4642-4660 | which chunk of the bins serves a large request, or none if dv fits as well |
| `MallocAllocator.Allocator.Malloc` | system/libc/src/malloc.c:4556-4690 | the state changed in place goes as the functions say, and so has all they have |
| `MallocAllocator.Allocator.Free` | system/libc/src/malloc.c:4694-4801 | the same for a free |
| `ExecStack.Builder.Build` | system/libc/src/unistd/fexecve.c:154-176 | the stack is built exactly if all strings and pointers fit; then the stack pointer is a multiple of 16 inside the memory, and start-up reads the same count, arguments and environment from it |
| `ExecStack.Builder.Finish` | system/libc/src/unistd/fexecve.c:140-152 | the words are moved up to the nearest aligned place below the strings, without overwriting one |
| `ExecStack.Builder.AddArray` | system/libc/src/unistd/fexecve.c:130-138 | a vector is pushed exactly if its strings, its pointers and a null fit |
| `ExecStack.Builder.PushText` | system/libc/src/unistd/fexecve.c:120-128 | a string is pushed below the others, with its terminator, exactly if it fits |
| `ExecStack.VectorReads` | system/libc/src/start_main.c:39-43 | the pointers from the one of string i on lead to the strings of the vector from there on, up to the null |
| `ExecStack.LaidReads` | system/libc/src/start_main.c:39-43 | from the words the builder lays down the reader gets the count and both vectors |
| `ExecStack.Memmove` | system/libc/src/string/memmove.c:3-20 | the bytes are moved whatever the overlap, and no other byte changes |

## Left out

- `close` of servers and handles, after which a channel keeps its state with an empty queue: the invariant is about channels open at both ends.
- Channel id 0 in a listen reads before the channel array; the model halts there.
- The step function of the kernel works on sequences and thread records by value; only the queue and the sleep list are also modelled with their pointers, in `KernelQueue` and `KernelSleep`.
- The descriptor table, floating-point state, the assertion on the code segment and the copying of bytes between address spaces: a copy is a fault or a success that a parameter decides, after the range checks that the code makes.
- The treap's nodes are records found by address, and a node that is removed is forgotten rather than zeroed.
- The first stack: a mapping that fails, and the loader that runs after it.
- KernelInvariant.DetachKeeps: requires a queue that is no channel's; a waiter of a channel leaves by `KernelSteps.PopPartnerKeeps`, which also sets the channel's state.
- The clock's tick counter and the frequency are parameters: reading them is the processor's.
- Forth: the byte words, `execute`, `b.or`, `@` and `!` in user programs, calls into C, and reading names; a header is an arbitrary block of cells. User programs are built from stack words, numbers, earlier words, `exit`, conditionals and loops.
- The hash table's marks are an array of booleans rather than bits packed in words, and tables of 2^31 slots and more, where the shifts overflow, are not distinguished.
- Page tables: large pages, which the user half never has, and the kernel half beyond the fact that it is copied and not touched. Addresses are page numbers; that they are page aligned is asserted by the code. In memory, what a page holds is kept apart from the tables, and only cloning reads it; that an assigned page is zeroed is stated of whole systems (`PageIsolation.AssignedZero`).
- PageTables.Mmu.MmuAssign: as the other operations over memory, requires the user half's frames and the free list to be distinct, which `PageRuns.RunKeeps` proves of every run.
- Areas are counted in pages, so that a hint that is not page aligned, which the code's assertion stops, does not arise. Failure to allocate an area half-way through a clone is not modelled.
- VmSpace.Vm.AllocMovable: when the hint leaves no room in its gap, the resulting list is stated and that it is out of order, not that it agrees with the page tables, which it need not.
- The links between the chunks of one bin and between the nodes of a trie are sequences and trees by value, and the checks for corruption are not modelled.
- The allocator has one segment, which grows at either end, of up to 2^40 bytes: chunks mapped directly, segments that do not adjoin, trimming, `realloc`, `memalign` and `calloc` are not modelled. What the system answers is a parameter.
- MallocLarge.LargeBins.FindBest: outside the sizes whose index is right it only returns what the bins searched hold, because the code looks in the wrong bin for the others.
