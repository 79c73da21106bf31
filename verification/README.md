# BadgerKernel: a verified model

BadgerKernel is a small cooperative kernel in C. This project models three of its cores in Dafny and
proves properties of them for all inputs, all reachable states and all runs.

- **The heap** (`Libc`, `BlockTags`, `Allocator`). A block-tag heap in which only the head block of an
  allocation carries its length. `BlockTags` says what each operation does to the tag array as a value,
  with first fit defined as the lowest start of enough free blocks. `Allocator.Heap` is the C code in
  place: the tag walk, the run search and the forward byte loop of `memcpy`.
- **The kernel** (`Threads`, `Scheduler`, `Lifecycle`, `Rings`, `Steps` and the invariants built on
  them). `Steps.Step` is one atomic kernel entry (a syscall, a thread switch, a timer tick, the end of
  a thread) or one thing user code does between entries; it follows the save, schedule, switch and
  restore protocol of `yield.S`. `Steps.Run` is a run of such events. `KernelObject.Kernel` is the same
  kernel as the globals of `thread.c` and the functions that update them in place; its method `Happen`
  is proved to compute `Step`, so every lemma about runs is about it too.
- **Numbers** (`Numerals`). The printer that writes digits backwards and reverses them in place, and
  the parser with a descending multiplier.

How the kernel proofs are built: `CoreInvariant` holds whenever user code runs. `Effects` splits a step
into one effect and what saving, scheduling and restoring may touch, so that most invariants are proved
about the effect alone; `StepParts` puts the parts together again, in order, and `Choices` reads off the
state before an entry whether the scheduler runs, whom it chooses and whether the kernel exits. What a call
does is then stated on the state before it alone: `NextThread` says who runs next, `Answers` and `CallSteps`
what the caller finds in its registers, `NewLives` what a created or restarted thread runs, `RunStates` what
becomes of every thread's state, `Properties` what a set property or configuration is, and `SignalMasks`
which signals are pending. One module follows for each promise over whole runs: `Waiters`, `SignalStacks`,
`SignalDelivery`, `SignalRuns`, `PageCache`, `PageCounts`, `Fairness`, `UserView`, `ErrNo`, `HeapOwners`,
`Mailboxes`, `Permissions`, `Loader`.
`BootRuns` drives a cold kernel step by step; `PageLeaks` and `Witnesses` use it to build the runs in which
a promise is broken.

The configuration modelled is `CODE_PAGE_SIZE` with `CODE_BACKING_PAGES`, on the 32-bit Arm port
(64-byte contexts, 8-byte stack alignment, 16-byte `ThreadArgs`). The number of threads, backing pages,
condition variables and heap blocks, and the range of `size_t`, are symbolic.

## Promises that the code keeps only under a condition

- A page's reference count is a `uint8_t`. Along a run the counts never fall below the number of holders
  if and only if no thread is created while the count of its creator's page is 255
  (`PageCounts.EveryRunCounts`). `PageLeaks.BootCanWrap` builds, from a cold kernel, the run in which a
  count comes back to zero while the page is in use: a paged thread that loads a file and cancels the
  loader leaves one count behind each time. In runs without such loads and without stack errors the
  counts are exact (`PageCounts.CleanRunsCountExactly`).
- While failed calls are logged, the errno saved around a call does not survive a switch. A call keeps
  every thread's errno, or reports its own error, if and only if the caller's errno is 0 or the caller
  runs on: the call does not run the scheduler, or the scheduler chooses the caller. Both are read off the
  state before the call (`ErrNo.LoggingKeepsErrNosIff`, for a whole step `ErrNo.LoggedStepKeepsErrNosIff`).
  After a failed stack check the errno of the hidden thread goes to the next thread, unless that one has an
  errno of its own (`ErrNo.HiddenLoggingKeepsErrNosIff`). `Witnesses.ErrNoCanBeLost` is a run from boot in
  which a thread writes 5, yields and has 0.
- A thread that ends drops its page before the switch. The contents of the pages still in use survive if
  and only if it had no unsaved writes or was the last holder (`PageCache.EndKeepsHeldPagesIff`);
  `Witnesses.WritesCanBeLost` is a run from boot that loses them. A switch while a program is being loaded
  writes the code page over the image (`PageCache.SwitchDropsImageUnless`), as in the run of
  `Witnesses.ImageCanBeLost`.

The same holds of a smaller promise: digits are parsed to their value, whatever the last one is, if and only
if the weight of the first is a `size_t` (`Numerals.ParsesEveryLastDigitIff`), so that enough leading zeros
lose a digit (`Numerals.LeadingZerosLoseADigit`).

One difference between the documentation and the code: `docs/design.md:310` says that the result is
zeroed for calls without one, while `src/kernel/syscall.c:282-285` leaves `arg0` as it was. The model
follows the code.

## Model

| member | source | states |
|---|---|---|
| Libc.Memcpy | src/common/libc.c:98-106 | The byte loop, on one array in which the regions may overlap, has the effect of copying lowest address first |
| Libc.Memmove | src/common/libc.c:108-128 | The destination receives the old source bytes whatever the overlap, and no other byte changes |
| Libc.ForwardCopyMoves | src/common/libc.c:98-106 | A forward copy is a move whenever the destination does not start strictly inside the source |
| Libc.ForwardCopyIsMoveIff | src/common/libc.c:98-106 | That condition is exact: it holds if and only if the loop is a move for every memory content |
| BlockTags.MallocMeans | src/kernel/alloc.c:62-87 | A success is an owned run at the lowest place that fits, disjoint from all runs, which all survive; failure means no permission, no blocks asked for (also when the rounding wraps) or no place at all |
| BlockTags.ReallocMeans | src/kernel/alloc.c:103-146 | The answer is NULL exactly without permission, or for the caller's block when no blocks are asked for or no run of free blocks and its own is long enough, and then every tag is as before; another thread's block is handed back as it is; a success is the caller's run at the lowest such place, and all other runs are kept |
| BlockTags.FreeMeans | src/kernel/alloc.c:158-166 | The caller's run is free afterwards, block by block, and every other run is kept; any other pointer changes nothing |
| BlockTags.FreedBlocksServe | src/kernel/alloc.c:158-166 | After a free, a request that fits in the freed run is met there or below |
| BlockTags.MallocThenFree | src/kernel/alloc.c:70-87 | Freeing what was just allocated gives back every block and touches no other |
| BlockTags.FreeTwice | src/kernel/alloc.c:89-101 | A second free, and a reallocation after a free, of the same pointer change nothing |
| BlockTags.FreeAllMeans | src/kernel/alloc.c:148-156 | Exactly the blocks of that thread's runs become free |
| BlockTags.EveryRunKeepsTheHeap | src/kernel/alloc.c:70-166 | Under any calls with any in-heap pointers, tags stay inside the heap with zero tags inside runs, and free blocks plus tags add up to the heap |
| BlockTags.RunsAreDisjoint | src/kernel/alloc.c:19-29 | Two runs never share a block |
| BlockTags.OthersNeverTouchARun | src/kernel/alloc.c:89-166 | A run stays as it is through any sequence of calls made for other threads |
| BlockTags.RelocationNeverStartsInside | src/kernel/alloc.c:117-139 | First fit never moves a run to a start strictly inside its own old blocks |
| BlockTags.RelocationTakesNoOthersBlock | src/kernel/alloc.c:117-139 | The blocks claimed by a reallocation belonged to no other run |
| BlockTags.ShrinkingNeverFails | src/kernel/alloc.c:117-146 | A reallocation that fits in the old run always succeeds, at or below it |
| Allocator.Heap.NextTag | src/kernel/alloc.c:19-29 | From a boundary between runs the walk goes to the very next one, and ends with SIZE_MAX |
| Allocator.Heap.FindFreeSpace | src/kernel/alloc.c:31-54 | The tag walk terminates and finds exactly first fit, or SIZE_MAX when there is no fit or no blocks are asked for |
| Allocator.Heap.Malloc | src/kernel/alloc.c:70-87 | In place, the tags and pointer of the specification, and the heap stays valid |
| Allocator.Heap.Realloc | src/kernel/alloc.c:103-146 | In place, the tags, the pointer and every heap byte of the specification, whose meaning `ReallocMeans` gives: on failure the old tag is restored |
| Allocator.Heap.FreeAll | src/kernel/alloc.c:148-156 | Exactly the runs of that thread are released, although the walk clears the tags it walks by |
| Allocator.Heap.Free | src/kernel/alloc.c:158-166 | In place, the tags of the specification, whose meaning `FreeMeans` gives: only the caller's run inside the heap is released |
| Allocator.ReallocKeepsContents | src/kernel/alloc.c:103-146 | A successful reallocation of a block keeps its first min(size, old size) bytes, although it copies forwards over regions that may overlap; the copy never leaves the heap, and no byte of any other run changes |
| Allocator.ReallocSparesOtherBytes | src/kernel/alloc.c:117-139 | From any pointer, into the middle of a block too, no byte of any other run changes |
| Allocator.ReallocKeepsEveryContentIff | src/kernel/alloc.c:117-139 | From any pointer the bytes copied survive, whatever they are, if and only if the new place does not start strictly inside them |
| Allocator.OthersNeverTouchBytes | src/kernel/alloc.c:70-166 | Every byte of a run survives any sequence of calls made for other threads |
| Allocator.RoundedSizeFits | src/kernel/alloc.c:62-64 | The rounding asks for no blocks exactly for size 0 and sizes that wrap; otherwise the blocks cover the size with less than one block to spare |
| Numerals.UintToStr | src/common/print.cpp:75-108 | Digits written backwards and reversed in place are the numeral and a NUL, and nothing after it is touched |
| Numerals.NumeralDenotes | src/common/print.cpp:75-108 | The numeral denotes the number in base 10 or 16, for every number |
| Numerals.FormatBufferFits | src/common/print.cpp:234-238 | The 17-byte buffer holds every 64-bit number in hex; in decimal it holds n if and only if n is below 10^16 |
| Numerals.FitsInDigits | src/common/print.cpp:75-108 | A numeral has at most k digits if and only if the number is below base^k |
| Numerals.Pow | src/common/print.cpp:118-127 | The loop computes base^(power - 1), wrapping as a size_t does |
| Numerals.ConsumeUint | src/common/print.cpp:132-156 | SIZE_MAX and no movement without a digit; otherwise it stops after the last digit with the weighted sum of the digits, which is their value if the weight of the first is a size_t |
| Numerals.SumDigits | src/common/print.cpp:146-151 | For every run of digits, the loop that divides its multiplier by ten gives the sum of the digits by weights that start at a power reduced to a size_t |
| Numerals.FittingRunsParse | src/common/print.cpp:146-151 | That sum is the value of the digits, modulo size_t, as long as the weight of the first is a size_t |
| Numerals.ParsesEveryLastDigitIff | src/common/print.cpp:146-151 | This condition is exact: it holds if and only if the digits are parsed to their value whatever the last one is |
| Numerals.LeadingZerosLoseADigit | src/common/print.cpp:146-151 | A digit after so many zeros that the first one's weight wraps is parsed to 0 |
| Numerals.PartialSumsAreBounded | src/common/print.cpp:146-151 | No weighted digit and no partial sum exceeds the final value |
| Numerals.PrintThenParse | src/common/print.cpp:75-156 | Parsing what was printed returns the number, for every size_t |
| CoreInvariant.EveryRunKeepsCore | src/kernel/thread.c:270-415 | In every run, whenever user code runs: ids match positions, only the current thread is running, and it can be scheduled |
| CoreInvariant.BootEstablishesCore | src/kernel/thread.c:136-187 | The kernel starts in such a state, with its built-in thread or with a program; it exits with status 1 if and only if there is no page for the program |
| CoreInvariant.SchedulerExitsIff | src/kernel/thread.c:282-325 | The inconsistent-id exit and the fallback to the current thread are unreachable, and the scheduler exits if and only if no thread can be scheduled |
| Choices.CallDecides | src/kernel/thread.c:373-415 | Whether a call runs the scheduler, whom that chooses, and whether the kernel exits and with which status can be read off the state before the call |
| Choices.StepEndsKernelIff | src/kernel/thread.c:310-325 | A step ends the kernel exactly in the cases listed: no switch and no timer does; status 0 means that no other thread can run once the current one has ended, waits or is hidden; status 1 comes only from an unknown call, a bad yield or a stack error that is not survived; else the status is the one asked for |
| Choices.RunEndsKernelIff | src/kernel/thread.c:310-325 | After any run the kernel has ended exactly if its last step ended it in one of these cases, with that status |
| CoreInvariant.ChooseFindsNoneIff | src/kernel/thread.c:270-295 | The wrapping search from any start misses no schedulable thread |
| NextThread.ChoicePrefersKin | src/kernel/thread.c:249-295 | A child that can run is chosen first, else a parent that can run, else the first thread that can run going round from the next slot |
| NextThread.StepPrefersKin | src/kernel/thread.c:249-325 | Who runs after every step, from the state before it: child, parent, next in line of those that can still run; the thread named by a yield; or the same thread if the scheduler does not run |
| RunStates.StepMovesStates | src/kernel/thread.c:328-389 | What every step makes of the state of every thread: created and restarted, running, parked, waiting, woken, cancelled or finished |
| RunStates.WokenCanRun | src/kernel/thread.c:341-351 | A thread that is woken can be scheduled, and the waker learns whether there is such a thread |
| RunStates.StackErrorHides | src/kernel/syscall.c:13-41 | A thread whose stack check fails is left without id and name, and another thread runs |
| RunStates.HiddenNeverRuns | src/kernel/syscall.c:13-41 | In every run it never runs again; only a new life can take its slot |
| Answers.CallGives | src/kernel/syscall.c:126-286 | The result of every call, and which calls have one, read off the state before it |
| Answers.CallerIsAnswered | src/kernel/syscall.c:280-309 | Every caller finds exactly that result in its first register and all other registers as they were: when it runs on, or on top of its stack when it has given way or has a signal to handle first |
| Answers.MallocAnswers | src/kernel/alloc.c:70-87 | The caller of malloc runs on with the address of its new run, or with NULL and an unchanged heap because there is no permission, nothing asked for or no room |
| Answers.ReallocAnswers | src/kernel/alloc.c:103-146 | The caller of realloc runs on with the place of its run, the pointer as it was, or NULL with its run untouched |
| Answers.FreeAnswers | src/kernel/alloc.c:158-166 | The caller of free runs on with its registers as they were, and its run is free |
| Answers.SendAnswers | src/kernel/message.c:33-51 | send_msg answers 1 and the message joins the queue with the sender's id, or 0 and the queue is as it was |
| Answers.GetAnswers | src/kernel/message.c:12-31 | get_msg answers 1 and hands over the oldest message, or 0 if there is none |
| Answers.YieldAnswers | src/kernel/thread.c:391-415 | A yield answers 1 exactly if another thread is run |
| NewLives.AddThreadStarts | src/kernel/thread.c:440-558 | add_thread answers with the lowest free slot, whose record then has the worker, arguments, name, permissions and page asked for, or those of the loader, with its first context in place; or with INVALID_THREAD, and no thread is created |
| NewLives.CreatedThreadStarts | src/kernel/signal_handling.c:7-21 | In every run after that, the created thread is first resumed at that context |
| NewLives.RestartStarts | src/kernel/thread.c:561-596 | After a restart the thread is at the first instruction of the life asked for, with an empty stack; it keeps id, parent and page, and its permissions but the removed ones |
| NewLives.BootStarts | src/kernel/thread.c:144-187 | The kernel starts with the setup thread, or the loader for its program, at its first instruction with all permissions |
| NewLives.EveryRunKeepsWork | src/kernel/thread.c:97-117 | In every run a life keeps the function and the arguments it was started with |
| Properties.SetPropertySets | src/kernel/thread_property.cpp:176-240 | A set answers 1 exactly if it reports no error; then that property of that thread is set and nothing else changes, and otherwise nothing does |
| Properties.SetThenGet | src/kernel/thread_property.cpp:124-174 | What was set is read back: the name cut to twelve characters, the remaining permissions, the registers with the thread's own stack pointer, the child, and the parent of the child |
| Properties.GetPropertyReads | src/kernel/thread_property.cpp:124-174 | A get changes nothing, and answers 1 exactly if it reports no error |
| Properties.SetConfigConfigures | src/kernel/thread.c:60-67 | Configuring needs TPERM_KCONFIG, and without it changes nothing |
| Properties.ConfiguredBits | src/kernel/thread.c:65-66 | The bits to disable are clear afterwards, those to enable set unless disabled too, and the others as they were |
| Effects.StepTouches | src/kernel/syscall.c:115-309 | Apart from the call's own effect, a kernel entry changes no more than run states, saved contexts, pending signals, errnos and page data, and ends or unblocks no thread |
| Effects.BroadcastOnlyWakes | src/kernel/condition_variable.c:22-28 | A broadcast terminates for any ring, and at most wakes threads |
| Waiters.BootRingsAreEmpty | src/kernel/condition_variable.c:5-10 | Variables that start empty satisfy the ring invariant at boot |
| Waiters.EveryRunKeepsRings | src/kernel/condition_variable.c:12-36 | If held threads are woken only by their variable and not cancelled, every ring holds distinct waiting threads in every run, and is not full when user code runs |
| Waiters.NoRingIsFull | src/kernel/condition_variable.c:30-36 | No wait ever finds a ring full, since the caller itself is not waiting |
| Waiters.FillingWaitEndsKernel | src/kernel/condition_variable.c:30-36 | The only wait that could fill a ring leaves nothing to run and ends the kernel |
| Waiters.StepMovesRing | src/kernel/condition_variable.c:12-36 | Every step moves a ring as a FIFO queue: a wait joins at the back, a signal leaves at the front |
| Waiters.SignalWakesOldest | src/kernel/condition_variable.c:12-20 | A signal wakes exactly the thread that waited longest, and touches no other variable |
| Waiters.BroadcastWakesExactly | src/kernel/condition_variable.c:22-28 | A broadcast wakes exactly the queued threads and leaves the ring empty |
| Waiters.WaitAppendsCaller | src/kernel/condition_variable.c:30-36 | A wait appends the caller, which no ring held |
| SignalStacks.BootIsSound | src/kernel/thread.c:126-133 | The first thread's stack, built-in or a loader's, is well formed at boot |
| SignalStacks.EveryRunKeepsSound | src/kernel/signal_handling.c:23-61 | If nothing sets a saved pc to the end marker, only the top context of a suspended thread is ever at the marker, right below the context it interrupted, and none is resumed there |
| SignalDelivery.InterruptedCodeResumesIntact | src/kernel/signal_handling.c:41-61 | However handlers nest, yield and finish, interrupted code resumes with its own context at its own stack address |
| SignalDelivery.StepKeepsBase | src/hw/arm_virt/yield.S:111-145 | A step leaves the contexts that wait on a stack as they are, or resumes exactly the topmost |
| SignalRuns.ScheduleChecks | src/kernel/signal_handling.c:41-61 | When the scheduler runs, a thread stays where it is, or is resumed after its signals were checked once |
| SignalRuns.NoScheduleKeeps | src/hw/arm_virt/yield.S:111-136 | When it does not, every thread keeps its contexts and signals, and the caller runs on |
| SignalMasks.StepMovesSignals | src/kernel/signal_handling.c:41-61 | What every step makes of every thread's pending signals: those sent are added, a schedule takes the lowest, or drops them all when there is no handler, and a new life has none |
| SignalMasks.ScheduleDelivers | src/kernel/signal_handling.c:23-29 | Who is scheduled with a handler and signals pending runs the handler for the lowest, in a context right below all that is on its stack |
| SignalMasks.EveryRunAddsSignals | src/kernel/thread_property.cpp:215-221 | Signals sent to a thread while it does not run add up, in every run |
| SignalMasks.SentSignalsAreHandled | src/kernel/signal_handling.c:31-61 | They are then all handled, once each and in ascending order, before the thread goes on with its own code |
| SignalRuns.MaskIsDrainedInEveryRun | src/kernel/signal_handling.c:31-61 | In every run, with handlers that may make any call that does not run the scheduler, a mask is drained in as many schedules as it has bits, one handler call per bit in ascending order, and the next schedule resumes the thread's own context |
| StepParts.EntryParts | src/hw/arm_virt/yield.S:49-136 | Every kernel entry is its effect, then a switch exactly if the scheduler runs, then an answer to the caller only, then the return to user code |
| PageCache.StepMovesCopies | src/kernel/thread.c:221-247 | What a step does to the live and the stored copy of a page, for every event: only threads that run from it matter, and only a switch, a restart or an end moves one copy to the other |
| PageCache.EveryRunMovesCopies | src/kernel/thread.c:221-247 | The same over every run, with no condition on loads, restarts, sharing or ends |
| PageCache.StepKeepsContent | src/kernel/thread.c:221-247 | Every step but the page's own code and a restart keeps the logical contents of every page, except that a thread that ends drops its unsaved writes |
| PageCache.EndKeepsHeldPagesIff | src/kernel/thread.c:353-371 | A thread's end keeps the contents of all held pages if and only if it had no unsaved writes or was the last holder |
| PageCache.NextThreadSeesItsPage | src/kernel/thread.c:328-338 | After every step the code page is that of the thread that runs: its contents before the step, what its own code wrote, or the stored copy if it restarts or takes over from a thread that ended |
| PageCache.EveryRunKeepsContent | src/kernel/thread.c:221-247 | In every run in which whoever ends has no unsaved writes or is the last holder, a page contains what was last written to it or what its last restart loaded; nothing is expected between its last holder's end and the next program in it |
| PageCache.HeldPagesAreExpected | src/kernel/thread.c:353-371 | As long as some thread holds the page, there is always something expected of it |
| PageCache.LoadThenRestart | src/kernel/thread.c:561-596 | A loader that keeps the processor, whatever else it does, and then restarts runs exactly the image it loaded last |
| PageCache.SwitchDropsImageUnless | src/kernel/thread.c:236-240 | A switch during the load writes the code page over the image, which survives if and only if it was the same |
| Witnesses.WritesCanBeLost | src/kernel/thread.c:353-371 | From boot, a thread that shares its page writes and ends; the survivor's page does not contain what was written |
| Witnesses.ImageCanBeLost | src/kernel/thread.c:236-240 | From boot, a timer tick between the load and the restart loses the image while the loader still holds its page |
| PageCounts.FreePageIsUnheld | src/kernel/thread.c:429-436 | With counts at or above the holders, a page handed out is held by nobody |
| PageCounts.CreationKeepsCountedIff | src/kernel/thread.c:440-484 | Creating a thread keeps counts at or above holders if and only if the creator's page count is below 255 |
| PageCounts.LoadingKeepsCountedIff | src/kernel/thread.c:487-558 | Loading a file does so under the same condition |
| PageCounts.EveryRunCounts | src/kernel/thread.c:353-371 | Along every run counts never fall below holders if and only if no thread is created while its creator's page count is 255; refused creations do not matter |
| PageCounts.BootCounts | src/kernel/thread.c:550-552 | Counts are exact at boot |
| PageCounts.CleanRunsCountExactly | src/kernel/thread.c:440-558 | Without stack errors and loads by paged threads, and with at most 255 threads, counts are exact |
| PageLeaks.CountCanWrap | src/kernel/thread.c:443-448 | From any state in which a paged thread can load files, a run of loads and cancels brings its page's count to zero while it runs from the page |
| PageLeaks.BootCanWrap | src/kernel/thread.c:551-552 | A cold kernel with at least three slots and two pages reaches such a state and that end |
| Fairness.WaitingIsBounded | src/kernel/thread.c:249-295 | Without relatives to yield to, a thread that stays schedulable is chosen within MAX_THREADS - 1 switches, whatever other threads do |
| Fairness.StepGetsCloser | src/kernel/thread.c:391-415 | Each switch brings its turn strictly closer, and a yield always gives way |
| UserView.BootShows | src/kernel/thread.c:297-308 | The cached view is right when the first thread starts |
| UserView.EveryRunKeepsViewFresh | src/kernel/thread.c:297-308 | At every return to user code the cached id, name and configuration read by src/user/thread.c:71-86 are those of the current thread and the kernel |
| ErrNo.EveryRunKeepsErrNoPrivate | src/kernel/thread.c:297-308 | Without logging, the one errno slot behaves as a private errno for each thread, across all interleavings |
| ErrNo.LoggingKeepsErrNosIff | src/kernel/syscall.c:272-299 | With logging, any call keeps every errno or reports its own error if and only if, in the state before the call, the caller's errno is 0 or the caller runs on: it does not give way, or is itself the thread chosen |
| ErrNo.LoggedStepKeepsErrNosIff | src/kernel/syscall.c:115-309 | The same for the whole kernel entry, up to the return to user code; a caller that gives way has errno 0 |
| ErrNo.HiddenLoggingKeepsErrNosIff | src/kernel/syscall.c:115-299 | After a failed stack check with logging, errnos are kept if and only if the hidden thread's is 0 or the next thread has one of its own |
| Witnesses.ErrNoCanBeLost | src/kernel/syscall.c:272-299 | From boot, a thread turns logging on, writes its errno and yields; then it is 0 |
| HeapOwners.EveryRunIsOwnedByTheLiving | src/kernel/thread.c:353-389 | In every run without stack errors each heap run belongs to a thread that is neither finished nor cancelled |
| HeapOwners.ReusedSlotOwnsNothing | src/kernel/thread.c:460-484 | A thread created in a reused slot owns no heap run |
| HeapOwners.BootOwnsNothing | src/kernel/thread.c:144-187 | No heap run is owned by anybody at boot |
| Mailboxes.BootRingsMet | src/kernel/thread.c:114-117 | The mailbox invariant holds at boot |
| Mailboxes.MailIsFifo | src/kernel/message.c:4-51 | Over one lifetime what was waiting and accepted equals what was received, in order and with the right senders, followed by what still waits |
| Mailboxes.ReceivedIsPrefixOfSent | src/kernel/message.c:4-51 | The messages received are a prefix of those accepted, at most 5 behind |
| Mailboxes.SendFailsIffFull | src/kernel/message.c:33-51 | A send to a valid thread fails if and only if 5 messages are outstanding |
| Permissions.PermissionsAreNeverRegained | src/kernel/thread.c:467-476 | A permission that no slot holds is never held again in the run |
| Permissions.StepShrinks | src/kernel/thread_property.cpp:205-207 | In a step a thread keeps at most its own permissions, and a new thread gets at most its creator's |
| Permissions.ConfigurationIsFixed | src/kernel/thread.c:60-67 | Once nobody may configure the kernel, its configuration is constant for the rest of the run |
| Loader.LoaderRegionsAreDisjoint | src/kernel/thread.c:526-548 | For every filename length the moved frame, the filename and the arguments are disjoint and the frame is aligned |
| Loader.ShortFilenamesFit | src/kernel/thread.c:526-531 | A simple bound on the filename keeps all of it inside the stack |
| Loader.PrepareStack | src/kernel/thread.c:526-548 | The overlapping move keeps the frame's contents, and filename and arguments arrive whole |
| KernelObject.Kernel.constructor | src/kernel/thread.c:136-142 | The C constructors leave a cold kernel |
| KernelObject.Kernel.ChooseNext | src/kernel/thread.c:249-295 | The search loop makes the choice whose order of preference `ChoicePrefersKin` gives, or exits on an inconsistent id |
| KernelObject.Kernel.Schedule | src/kernel/thread.c:310-339 | The in-place scheduler, piece by piece, has the effect that the run lemmas are about |
| KernelObject.Kernel.SwapPages | src/kernel/thread.c:221-247 | The outgoing page is saved and the incoming page brought in; between a thread and itself nothing happens; for a restart the thread's own page is brought in and nothing saved |
| KernelObject.Kernel.LowestSignal | src/kernel/signal_handling.c:31-39 | The loop finds the lowest pending signal |
| KernelObject.Kernel.CheckThreadSignals | src/kernel/signal_handling.c:41-61 | A finished handler's context is removed and at most one signal delivered, in one thread's record only |
| KernelObject.Kernel.Cancel | src/kernel/thread.c:373-389 | Memory and page go with the thread, and only a thread that cancels itself makes the scheduler run |
| KernelObject.Kernel.ReusableSlot | src/kernel/thread.c:463-466 | The lowest slot that is invalid, cancelled or finished |
| KernelObject.Kernel.FreeBackingPage | src/kernel/thread.c:429-436 | The lowest page with count 0, or INVALID_PAGE |
| KernelObject.Kernel.AddFromFile | src/kernel/thread.c:487-558 | A loader on the lowest free page, with its stack pointer moved and arguments set, or E_NO_PAGE |
| KernelObject.Kernel.RestartThread | src/kernel/thread.c:561-596 | In place, the new life that `RestartStarts` describes, and the page copied in |
| KernelObject.Kernel.GetMessage | src/kernel/message.c:12-31 | The oldest message is handed over and its slot freed |
| KernelObject.Kernel.SendMessage | src/kernel/message.c:33-51 | The message is stored at the end of the receiver's ring, or refused |
| KernelObject.Kernel.Broadcast | src/kernel/condition_variable.c:22-28 | The signal loop ends and has the effect of signalling until the ring is empty |
| KernelObject.Kernel.ChangeProperty | src/kernel/thread_property.cpp:192-231 | Each setter changes its field, and only a new child's parent in another record |
| KernelObject.Kernel.HandleSyscallEntry | src/kernel/syscall.c:115-309 | Stack check, dispatch, result, errno and choice of the next thread together, in place; `CallerIsAnswered` says where the result goes |
| KernelObject.Kernel.LoadNext | src/hw/arm_virt/yield.S:111-136 | The scheduler runs only if nobody was chosen; then the chosen thread becomes current and its top context is restored |
| KernelObject.Kernel.Happen | src/hw/arm_virt/yield.S:49-136 | Every kernel entry and user action in place equals one step of the model |
| KernelObject.Kernel.Boot | src/kernel/thread.c:144-187 | The setup thread is added, or the startup program loaded, and run; exit with status 1 if the program cannot be loaded |

## Left out

- Allocator.Heap.Realloc: a call whose copy would read past the end of the heap (`Allocator.CopyStaysInside`), which only a pointer into the middle of a block can cause; `Allocator.ReallocKeepsContents` shows that the start of a block never does.
- Allocator.ReallocKeepsEveryContentIff: the same.
- Allocator.ReallocSparesOtherBytes: the same.
- Allocator.OthersNeverTouchBytes: the same, for each call of the sequence.
- KernelObject.Kernel.RestartThread: restart by a thread without a page, where the code reads a backing page that does not exist.
- KernelObject.Kernel.Happen: the sizes of memory calls are `size_t` values, and reallocation and restart are as above.
- Numerals.ParsesEveryLastDigitIff: which single digit strings happen to parse to their value although the first weight wraps; `Numerals.SumDigits` says what each of them gives.
- PageCounts.EveryRunCounts: "in every run" is not true of the code, because the count wraps; the condition is exact, and `PageLeaks.BootCanWrap` is the run that shows it.
- PageCounts.CleanRunsCountExactly: at most 255 threads, beyond which a page can have more holders than a `uint8_t` counts.
- PageCache.EveryRunKeepsContent: a thread that ends with unsaved writes while others hold its page loses them; `PageCache.EveryRunMovesCopies` says what the page then contains.
- SignalRuns.MaskIsDrainedInEveryRun: handlers that are preempted by the timer, which the scheduler sees as a yield; `SignalDelivery.InterruptedCodeResumesIntact` covers them.
- Waiters.EveryRunKeepsRings: a condition variable is memory that only the kernel writes after it was set up; user code that scribbles over it is not modelled.
- Loader.PrepareStack: the loader's stack bytes are an array of their own, not part of the kernel state.
- Pointers below the heap, signal numbers above 32, and restart by a thread without a page: preconditions of the calls (`Steps.CallIsUsable`).
- Stack overflow as memory corruption: a stack error is only the failing branch of `check_stack`, at any syscall. User code is otherwise taken to stay below the contexts saved on its stack.
- Thread ids are unbounded integers; the C code keeps a block's owner in an `int16_t`, so the match is exact up to 32767 threads.
- A failed `assert` in `k_yield` is modelled as an exit with status 1, like an unknown syscall.
- The end of `thread_start` is one step; its cleanup can in C be interrupted by a timer.
- Pending signals are the set of bits of the 32-bit mask, and thread names are strings cut at 12 characters.
- File, directory and mutex calls: only that they give a result and perhaps an errno.
- The ELF loader: "an image is written to the loader's page" is one event.
- Semihosting, drivers, logging and trace output, the other architectures' copies of `yield.S`, the user-side syscall wrappers, the demos and the shell: outside these cores.
- A single code page without backing pages (`in_code_page`): not the configuration modelled.
