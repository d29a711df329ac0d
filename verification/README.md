# A verified model of the node-replicated kernel

A Dafny model of the parts of this kernel whose correctness rests on arguments that no single
function shows: the boot-time page table builder and the simple address space it is compared
with, the replicated in-memory file system, physical memory ownership, the lock-free queue, the
kernel's and the user-level scheduler's locks, and the vmxnet3 transmit ring.

`dafny verify dfyconfig.toml` checks the whole project.

## How it is built

- Concurrent code is a step machine. One step is one atomic access, one lock operation or one
  scheduler action of one thread; a run is an arbitrary sequence of steps by arbitrary threads.
  An invariant is shown to survive every step, and the results are stated for every run from the
  initial state. Fields that only record history (which ticket holds which value, who was granted
  the mutex) are read by no step.
- Code that updates objects is a class whose methods are proved against functions on values, and
  the laws are proved about those functions. The file system node is a class over file objects made
  of pages, and what it does to them is what the functions do to byte strings.
- A failed assertion, `expect`, `unwrap` or index check of the source is a result (`false`,
  `Panic`, `Panicked`, `Failure`) or a counter (`faults`, `selfLocks`, `mismatches`, `overflows`)
  wherever a run can reach it. Assertions on the arguments of a helper are its precondition where
  every call meets it: a frame is split at a multiple of a page (`Frames.SplitAt`), and descriptors
  are allocated in the table of a process that exists.
- Where the source promises more than it keeps, there is a lemma that shows a failing input or a
  failing run from the initial state, and one that says exactly when the promise holds.

| file | models |
|---|---|
| `Paging`, `VSpace` | four-level page tables and `map_generic` |
| `VspaceModel`, `PagingRefinement` | the list-of-mappings address space, and that page tables refine it |
| `Mpmc`, `MpmcResults` | the bounded multi-producer multi-consumer queue, and what its calls return |
| `KernelRwLock` | the distributed reader-writer lock |
| `LineupMutex`, `LineupRwLock`, `Waitlist` | the user-level scheduler's mutex, lock and timed waitlist |
| `LineupMutexCalls`, `LineupRwLockCalls` | what the calls of the two locks do undisturbed |
| `File`, `MemNode`, `Cnrfs`, `CnrfsConvergence` | paged files up to the replicated file system node |
| `CnrfsIndex`, `CnrfsCalls` | names, descriptors and bytes as its callers see them |
| `Frames`, `MCache`, `GlobalMemory`, `MemoryRuns`, `DetMem` | physical memory, its caches, and the deterministic allocator |
| `Ring`, `TxQueue` | the transmit queue and its device |
| `Arith`, `Bits`, `Counting` | division, bit masks, counting threads |

## Where the code does something other than it says

- `map_generic` is documented to panic when a mapping already exists. The loops over 1 GiB and
  2 MiB entries look only at the first entry, so later mappings are replaced silently
  (`VSpaceModule.SilentOverwrite`). `VSpaceModule.VSpace.MapGeneric` states exactly which requests
  complete.
- A write that fails for lack of memory still fills the last page of the file with zeros
  (`FileModule.File.WriteFile`), and an empty write behind the end grows the file.
- Renaming a file to its own name deletes it and reports an error (`CnrfsIndex.RenameToItself`).
- Replicas diverge when the mnode a write carries leads to another log than its descriptor's does
  (`CnrfsConvergence.StaleOrdersDiverge`): the mnode is looked up before the write is logged. That
  is exactly when the order matters (`CnrfsConvergence.IrrelevantIffCarried`). A read at the cursor
  changes only the replica it runs on (`CnrfsIndex.ReadKeepsReplica`).
- The deterministic allocator promises that an allocation succeeds on all replicas or on none. When
  one node's allocation fails, the leading replica returns its own pointer after freeing it, and gets
  a null queued for a later request (`DetMem.FailureSplitsNodes`, `DetMem.AccountsIffAllOk`).
- The first reader of a user-level lock stays recorded as the owner of the lock's `access` mutex when
  it leaves before the other readers. If it then tries to enter, the mutex panics
  (`LineupRwLock.OwnerTryPanics`). It takes two threads, no more (`LineupRwLock.NoSelfLockIffAlone`),
  and a caller is safe as long as it is not the recorded owner
  (`LineupRwLock.NoOwnerTriesIsSafe`, `LineupRwLock.NoSelfLockIff`). The same for the mutex by itself,
  when the thread that exits it is not the one that entered it (`LineupMutex.PassedOwnerPanics`,
  `LineupMutex.SelfLocksIff`).
- An interrupt makes its thread runnable even if that thread is parked in a mutex, which it then
  enters (`LineupMutex.InterruptBreaks`): with interrupts for any thread, two threads are enough to
  break exclusion (`LineupMutex.InterruptsSafeIff`). Two dispatchers for one core can pop a thread
  whose generator is not back yet (`LineupMutex.SharedCorePanics`), and without interrupts nothing
  else makes the scheduler panic (`LineupMutex.SafeIffOneDispatcher`).
- `Mutex::try_enter` does not reload the counter: once it has read zero it never gives up, but waits
  for the mutex (`LineupMutex.TryWaits`).
- The kernel lock's writer scans the first `max_threads` reader slots; a reader in a later slot is
  not excluded (`KernelRwLock.SafeIffScanned`). Releasing a write guard uses a weak
  compare-exchange, whose spurious failure panics (`KernelRwLock.RunSafe`).
- Enqueuing a chain without segments hands the device a descriptor that was not written
  (`TxQueueModule.TxQueue.Enqueue`). The length field of a descriptor has 14 bits, and longer
  segments are sent truncated (`TxQueueModule.SentWhole`).

## Model

| member | source | states |
|---|---|---|
| `Paging.ResolveIsWalk` | bootloader/src/vspace.rs:486-517 | on well-formed tables the resolution by nested tests returns what walking the four levels defines, and fails exactly on holes |
| `Paging.Digits` | bootloader/src/vspace.rs:486-517 | the four table indices and the offset in a page are the digits of an address |
| `VSpaceModule.VSpace.constructor` | bootloader/src/vspace.rs:108-111 | a new address space maps nothing |
| `VSpaceModule.VSpace.AllocateOnePage` | bootloader/src/vspace.rs:352-356 | a page no table uses |
| `VSpaceModule.VSpace.NewTable` | bootloader/src/vspace.rs:456-469 | a new empty table, which changes no translation |
| `VSpaceModule.VSpace.FillRun` | bootloader/src/vspace.rs:189-276 | the 1 GiB and 2 MiB loops map a run of blocks and stop at the end of the table or with less than a block to go |
| `VSpaceModule.VSpace.BaseRun` | bootloader/src/vspace.rs:314-335 | the 4 KiB loop maps up to the first present entry, and fails exactly there |
| `VSpaceModule.VSpace.MapBig` | bootloader/src/vspace.rs:182-295 | the branches for 1 GiB and 2 MiB pages, with the recursion on the rest |
| `VSpaceModule.VSpace.MapBase` | bootloader/src/vspace.rs:314-348 | the branch for 4 KiB pages, with the recursion on the rest |
| `VSpaceModule.VSpace.MapInPdpt` | bootloader/src/vspace.rs:175-244 | choosing at the third level |
| `VSpaceModule.VSpace.MapInPd` | bootloader/src/vspace.rs:246-312 | choosing at the second level |
| `VSpaceModule.VSpace.Continue` | bootloader/src/vspace.rs:210-347 | the recursive call on what is left of the range |
| `VSpaceModule.VSpace.MapGeneric` | bootloader/src/vspace.rs:149-349 | any request below 2^48, any mix of page sizes and table crossings: it completes exactly under the stated condition, and then every address inside translates to its place with the rights asked for in its last entry, every address outside as before, and every block that could be large is |
| `VSpaceModule.ClearCompletes` | bootloader/src/vspace.rs:149-349 | a request into unmapped memory fires no assertion |
| `VSpaceModule.IncongruentCompletes` | bootloader/src/vspace.rs:178-304 | without large pages a request completes exactly if its range is unmapped |
| `VSpaceModule.MapsResolve` | bootloader/src/vspace.rs:486-517 | after a completed request `resolve_addr` gives the physical range inside and is unchanged outside |
| `VSpaceModule.SilentOverwrite` | bootloader/src/vspace.rs:143-148 | the documented panic on an existing mapping does not happen: a concrete pair of requests |
| `VSpaceModule.OverlapUnnoticed` | bootloader/src/vspace.rs:182-227 | why that request completes |
| `VspaceModel.Intersection` | kernel/src/memory/vspace_model.rs:26-44 | the common part of two ranges, or nothing exactly if they do not overlap |
| `VspaceModel.OrderIrrelevant` | kernel/src/memory/vspace_model.rs:150-163 | on disjoint mappings the answer does not depend on the order of the log |
| `VspaceModel.ModelAddressSpace.MapFrame` | kernel/src/memory/vspace_model.rs:56-127 | error cases exactly; a well-formed request is accepted exactly if every mapping that translates a requested address starts at the requested base, ends inside the range, and has the same memory and rights; then the space is extended by the request and no other address changes; a refusal reports the lowest requested address that some other mapping translates |
| `VspaceModel.ModelAddressSpace.FindConflicts` | kernel/src/memory/vspace_model.rs:70-94 | the addresses collected are translated by a mapping that starts elsewhere, ends later or maps something else, and reach down to every such address |
| `VspaceModel.ModelAddressSpace.Adjust` | kernel/src/memory/vspace_model.rs:135-148 | changes the rights of exactly one mapping |
| `VspaceModel.ModelAddressSpace.Resolve` | kernel/src/memory/vspace_model.rs:150-163 | the latest mapping that covers the address |
| `VspaceModel.ModelAddressSpace.Unmap` | kernel/src/memory/vspace_model.rs:165-187 | removes exactly one mapping |
| `PagingRefinement.MapBoth` | kernel/src/memory/vspace_model.rs:56-127 | a request the model accepts on free memory is served by both, and they agree afterwards |
| `PagingRefinement.MapAll` | bootloader/src/vspace.rs:149-517 | after any sequence of separate requests both resolve every address alike |
| `PagingRefinement.AgreeResolves` | bootloader/src/vspace.rs:486-517 | agreement as seen through the two resolve functions |
| `Mpmc.Slots` | kernel/src/mpmc.rs:45-72 | the number of slots: the least power of two that is at least two and the capacity |
| `Mpmc.MaskIsSlot` | kernel/src/mpmc.rs:74-134 | the mask selects the slot of a ticket |
| `Mpmc.WithCapacity` | kernel/src/mpmc.rs:45-72 | for every capacity asked for: an empty queue of the initial state, with the least number of slots allowed |
| `Mpmc.SpuriousFailure` | kernel/src/mpmc.rs:82-96 | a weak compare-exchange that fails for no reason has the position read again, and changes nothing else |
| `Mpmc.WinPushKeeps` | kernel/src/mpmc.rs:82-96 | a thread that wins an enqueue ticket gets its slot to itself |
| `Mpmc.WinPopKeeps` | kernel/src/mpmc.rs:113-127 | a thread that wins a dequeue ticket gets a full slot to itself |
| `Mpmc.StoreKeeps` | kernel/src/mpmc.rs:87-91 | storing the value |
| `Mpmc.PublishKeeps` | kernel/src/mpmc.rs:87-93 | publishing it by the sequence number |
| `Mpmc.TakeKeeps` | kernel/src/mpmc.rs:118-122 | taking the value out |
| `Mpmc.ReleaseKeeps` | kernel/src/mpmc.rs:118-124 | releasing the slot for the next round |
| `Mpmc.ExecKeeps` | kernel/src/mpmc.rs:74-134 | the invariant over every interleaving of any number of threads |
| `Mpmc.RunSafe` | kernel/src/mpmc.rs:74-134 | dequeue ticket k returns the value of enqueue ticket k and never nothing, tickets stay within the capacity of each other, and no slot has two owners |
| `Mpmc.TicketAccounted` | kernel/src/mpmc.rs:74-134 | every pushed value is in exactly one place: with its producer, in its slot, with its consumer, or returned |
| `Mpmc.OneOwner` | kernel/src/mpmc.rs:82-125 | two threads never work on one slot's value |
| `Mpmc.PushFindsFull` | kernel/src/mpmc.rs:97-98 | the test by which push gives up is true exactly while the value one round before is not released |
| `Mpmc.PopFindsEmpty` | kernel/src/mpmc.rs:128-129 | pop gives up only when nothing is queued, or the next value is not published |
| `MpmcResults.PushReturns` | kernel/src/mpmc.rs:74-104 | over every run: a push that returned has added its value as exactly one ticket, or added nothing and at some moment during the call found a slot whose value of the round before was not released |
| `MpmcResults.PopReturns` | kernel/src/mpmc.rs:106-134 | over every run: a pop that returned a value has taken exactly one ticket and returns the value pushed as that ticket, or took none and at some moment during the call found nothing queued or the next value not published |
| `MpmcResults.PushAlone` | kernel/src/mpmc.rs:74-104 | undisturbed, a push adds its value exactly if there is room, and otherwise changes nothing |
| `MpmcResults.PopAlone` | kernel/src/mpmc.rs:106-134 | undisturbed, a pop takes the oldest value exactly if it is published, and otherwise changes nothing |
| `MpmcResults.SevenSteps` | kernel/src/mpmc.rs:74-134 | from every reachable state any call left alone returns within seven steps |
| `KernelRwLock.ReaderKeeps` | kernel/src/fs/rwlock.rs:143-193 | every step of a reader keeps the invariant |
| `KernelRwLock.ScanClears` | kernel/src/fs/rwlock.rs:127-136 | a slot that reads zero during the scan has no read guard, although it is read at another time than the others |
| `KernelRwLock.LateReaderBacksOff` | kernel/src/fs/rwlock.rs:154-172 | a reader that counts itself after the flag is set, also in a slot already scanned, finds the flag and leaves |
| `KernelRwLock.WriterKeeps` | kernel/src/fs/rwlock.rs:111-185 | every step of a writer keeps the invariant |
| `KernelRwLock.ExecKeeps` | kernel/src/fs/rwlock.rs:111-193 | the invariant over every interleaving, with any number of agents per slot, also of readers that count themselves while the flag is set |
| `KernelRwLock.RunSafe` | kernel/src/fs/rwlock.rs:111-193 | guards exclude each other, counters never underflow, and the only panic is a release that failed spuriously |
| `KernelRwLock.UnscannedBreaks` | kernel/src/fs/rwlock.rs:127-136 | a reader in a slot that is not scanned and a writer both get their guards |
| `KernelRwLock.SafeIffScanned` | kernel/src/fs/rwlock.rs:111-170 | guards exclude each other in all runs exactly if all slots in use are scanned |
| `KernelRwLock.ReadReturns` | kernel/src/fs/rwlock.rs:143-175 | over every run a `read` goes on, or returns with a read guard |
| `KernelRwLock.ReadStep` | kernel/src/fs/rwlock.rs:154-175 | at the step at which it returns the flag is clear and it is counted in its slot |
| `KernelRwLock.WriteReturns` | kernel/src/fs/rwlock.rs:111-140 | over every run a `write` goes on, or returns with the write guard |
| `KernelRwLock.WriteStep` | kernel/src/fs/rwlock.rs:127-140 | at the step at which it returns the flag is its own and the last slot scanned reads zero |
| `KernelRwLock.ReadDrop` | kernel/src/fs/rwlock.rs:143-193 | a `read` that meets no writer counts itself once in its slot, and dropping its guard undoes it |
| `KernelRwLock.WriteDrop` | kernel/src/fs/rwlock.rs:111-185 | a `write` that meets nobody sets the flag only, and dropping its guard undoes it |
| `KernelRwLock.ReadRetries` | kernel/src/fs/rwlock.rs:154-172 | a `read` that meets a writer takes itself out of its slot again, with nothing else changed |
| `KernelRwLock.FlagHolds` | kernel/src/fs/rwlock.rs:115-161 | while the flag is set neither call gets beyond its first loop |
| `LineupMutex.SchedPark` | lib/lineup/src/scheduler.rs:280-297 | parking leaves the thread out of its run queue unless it was granted the mutex meanwhile |
| `LineupMutex.SchedHand` | lib/lineup/src/scheduler.rs:263-279 | a granted thread enters its run queue once, before or after it has parked |
| `LineupMutex.SchedStore` | lib/lineup/src/scheduler.rs:478-494 | the generator is back before its dispatcher pops again |
| `LineupMutex.SchedStart` | lib/lineup/src/scheduler.rs:440-477 | dispatching keeps queues, seats and generators consistent |
| `LineupMutex.PoppedIsStored` | lib/lineup/src/scheduler.rs:443-454 | a popped thread always finds its generator, and if it was parked it has been granted the mutex |
| `LineupMutex.MutexRelease` | lib/lineup/src/mutex.rs:214-226 | leaving while others wait makes the leaver responsible for the hand-off |
| `LineupMutex.MutexPop` | lib/lineup/src/mutex.rs:241-245 | the oldest waiter is chosen |
| `LineupMutex.MutexHand` | lib/lineup/src/mutex.rs:241-245 | making it runnable grants it the mutex |
| `LineupMutex.MutexInherit` | lib/lineup/src/mutex.rs:146-181 | the granted thread returns from `enter` as the owner |
| `LineupMutex.WaitlistHasRoom` | lib/lineup/src/mutex.rs:41-51 | at least two threads are not on the waitlist when a thread lists itself, so 65 threads never overflow it |
| `LineupMutex.NextKeeps` | lib/lineup/src/mutex.rs:102-253 | the invariant of mutex and scheduler over every step |
| `LineupMutex.ExecKeeps` | lib/lineup/src/mutex.rs:102-253 | and over every run |
| `LineupMutex.OneOwner` | lib/lineup/src/mutex.rs:139-181 | at most one owner |
| `LineupMutex.NoLostWakeup` | lib/lineup/src/mutex.rs:146-176 | a parked thread is on the waitlist, chosen, or granted and in its run queue; and somebody is there to wake it |
| `LineupMutex.SpinEnds` | lib/lineup/src/mutex.rs:226-251 | the wait for a non-empty waitlist is always for a running thread that lists itself next |
| `LineupMutex.RunSafe` | lib/lineup/src/mutex.rs:102-253 | every run without interrupts: one owner, the counter is the number of threads holding or waiting, waiters served in the order they listed themselves, nobody parked at a free mutex; no panic of the scheduler or of `exit`, and no full waitlist with 65 threads |
| `LineupMutex.TryWaits` | lib/lineup/src/mutex.rs:109-130 | once it has read zero, `try_enter` only ends by entering |
| `LineupMutex.SelfLocksIff` | lib/lineup/src/mutex.rs:102-107 | over every run `try_enter` panics exactly if the recorded owner calls it |
| `LineupMutex.NoPassingIsSafe` | lib/lineup/src/mutex.rs:102-258 | it never does as long as whoever enters also exits |
| `LineupMutex.PassedOwnerPanics` | lib/lineup/src/mutex.rs:102-107 | from the start: a holder that leaves the exit to another thread and tries again panics |
| `LineupMutex.NoSelfLockIff` | lib/lineup/src/mutex.rs:102-107 | no run panics so exactly if there are no two threads, or nothing to run |
| `LineupMutex.SharedCorePanics` | lib/lineup/src/scheduler.rs:254-262 | from the start: with two dispatchers for one core that has a thread, a yielding thread is popped without its generator |
| `LineupMutex.SafeIffOneDispatcher` | lib/lineup/src/scheduler.rs:440-494 | no run without interrupts panics in the scheduler exactly if no two dispatchers share a core that has a thread |
| `LineupMutex.InterruptBreaks` | lib/lineup/src/scheduler.rs:403-413 | from the start: an interrupt for a parked thread gives the mutex a second owner |
| `LineupMutex.InterruptsSafeIff` | lib/lineup/src/scheduler.rs:402-413 | with interrupts for any thread the mutex excludes in all runs exactly if there are no two threads, or no dispatcher |
| `LineupMutexCalls.FreeIff` | lib/lineup/src/mutex.rs:102-253 | the counter is zero exactly if no thread holds the mutex or waits for it |
| `LineupMutexCalls.AloneIff` | lib/lineup/src/mutex.rs:214-226 | and one exactly if its holder is the only such thread |
| `LineupMutexCalls.TryEnterAnswers` | lib/lineup/src/mutex.rs:102-137 | an undisturbed `try_enter` panics for the recorded owner, and otherwise enters exactly if the mutex is free; if not, nothing changes |
| `LineupMutexCalls.SpinAnswers` | lib/lineup/src/mutex.rs:183-212 | the spinning `enter` takes a free mutex, and otherwise only waits |
| `LineupMutexCalls.EnterFree` | lib/lineup/src/mutex.rs:139-181 | `enter` of a free mutex: the state it ends in |
| `LineupMutexCalls.EnterParks` | lib/lineup/src/mutex.rs:146-176 | `enter` of a held one: last in the waitlist, and parked |
| `LineupMutexCalls.ExitAlone` | lib/lineup/src/mutex.rs:214-226 | `exit` by an uncontended holder leaves the mutex free |
| `LineupMutexCalls.ExitHands` | lib/lineup/src/mutex.rs:226-251 | otherwise the first of the waitlist becomes runnable on its core, once, as the next owner |
| `LineupMutexCalls.ParkedResumes` | lib/lineup/src/scheduler.rs:440-477 | a parked thread that is dispatched has the mutex |
| `LineupMutexCalls.EnterExit` | lib/lineup/src/mutex.rs:139-226 | entering a free mutex and leaving it changes nothing |
| `LineupRwLock.AccessEnterKeeps` | lib/lineup/src/rwlock.rs:117-121 | a writer that gets `access` is alone |
| `LineupRwLock.FirstCountKeeps` | lib/lineup/src/rwlock.rs:123-126 | the first reader is counted before it has `access` |
| `LineupRwLock.JoinKeeps` | lib/lineup/src/rwlock.rs:123-130 | a further reader only counts itself |
| `LineupRwLock.StoreOneKeeps` | lib/lineup/src/rwlock.rs:158-167 | `try_enter` overwrites the count only when it is zero |
| `LineupRwLock.TakeOverKeeps` | lib/lineup/src/rwlock.rs:203-243 | the last reader leaving, or the only reader upgrading, takes over `access`, and the invariant holds (for the answer of an upgrade see `LineupRwLockCalls.UpgradeAnswers`) |
| `LineupRwLock.LeaveKeeps` | lib/lineup/src/rwlock.rs:207-217 | a reader leaving others behind |
| `LineupRwLock.DowngradeKeeps` | lib/lineup/src/rwlock.rs:223-231 | a writer becoming a reader, also while a first reader is blocked |
| `LineupRwLock.HandOverKeeps` | lib/lineup/src/rwlock.rs:226-230 | it then gives `access` up to that reader |
| `LineupRwLock.LastExitKeeps` | lib/lineup/src/rwlock.rs:209-213 | the last holder releases `access`, which is held |
| `LineupRwLock.HeldFacts` | lib/lineup/src/rwlock.rs:203-217 | `exit` takes the branch of the caller's own hold, and the count never underflows |
| `LineupRwLock.NextKeeps` | lib/lineup/src/rwlock.rs:108-250 | the invariant over every step |
| `LineupRwLock.ExecKeeps` | lib/lineup/src/rwlock.rs:108-250 | and over every interleaving of enter, try_enter, exit, upgrade and downgrade |
| `LineupRwLock.WriterAlone` | lib/lineup/src/rwlock.rs:108-137 | a writer never coexists with another holder |
| `LineupRwLock.QuietIsNew` | lib/lineup/src/rwlock.rs:203-250 | when all have left, the lock is as new |
| `LineupRwLock.RunSafe` | lib/lineup/src/rwlock.rs:108-250 | every run: exclusion, the reader count is the number of readers, `access` and `wait` released exactly once per hold, nothing left behind, and no panic but that of `try_enter` by a recorded owner |
| `LineupRwLock.SelfLockIff` | lib/lineup/src/rwlock.rs:139-201 | a step panics in `try_enter` exactly if its thread is recorded as the owner of `access`; never on `wait` |
| `LineupRwLock.NoSelfLockIff` | lib/lineup/src/rwlock.rs:139-201 | over every run there is no such panic exactly if there is no such step |
| `LineupRwLock.NoOwnerTriesIsSafe` | lib/lineup/src/rwlock.rs:139-201 | nor if no try is begun by the recorded owner, however the run goes on |
| `LineupRwLock.TryWritePanicsIff` | lib/lineup/src/rwlock.rs:139-154 | an uninterrupted try for writing panics exactly if its caller is the recorded owner |
| `LineupRwLock.TryReadPanicsIff` | lib/lineup/src/rwlock.rs:155-175 | and one for reading exactly if, besides, no reader is there |
| `LineupRwLock.OwnerTryPanics` | lib/lineup/src/rwlock.rs:203-217 | from the start: a first reader that left before the other panics in its next try |
| `LineupRwLock.NoSelfLockIffAlone` | lib/lineup/src/rwlock.rs:108-250 | no run panics so exactly if there are no two threads |
| `LineupRwLockCalls.UpgradeAnswers` | lib/lineup/src/rwlock.rs:233-250 | an undisturbed upgrade ends as the writer exactly if nobody else is counted as a reader, and otherwise as the reader it was, with nothing changed |
| `LineupRwLockCalls.UpgradeAlone` | lib/lineup/src/rwlock.rs:233-250 | the whole state after either |
| `LineupRwLockCalls.TryWriteAnswers` | lib/lineup/src/rwlock.rs:139-154 | an undisturbed try for writing gets the lock exactly if every thread is outside it, and otherwise changes nothing |
| `LineupRwLockCalls.TryReadAnswers` | lib/lineup/src/rwlock.rs:155-175 | an undisturbed try for reading gets the lock exactly if there are only readers, and otherwise changes nothing |
| `LineupRwLockCalls.TryFailsHeld` | lib/lineup/src/rwlock.rs:139-201 | over every step of every run a try fails only while another thread is entering or holds the lock, and then changes nothing else |
| `LineupRwLockCalls.EnterWriteAlone` | lib/lineup/src/rwlock.rs:108-121 | entering a free lock for writing: the state it ends in |
| `LineupRwLockCalls.EnterReadFirst` | lib/lineup/src/rwlock.rs:122-130 | the first reader |
| `LineupRwLockCalls.EnterReadJoins` | lib/lineup/src/rwlock.rs:122-130 | a further reader |
| `LineupRwLockCalls.DowngradeAlone` | lib/lineup/src/rwlock.rs:223-231 | a writer that becomes a reader |
| `LineupRwLockCalls.ExitAlone` | lib/lineup/src/rwlock.rs:203-217 | what an exit leaves, as the last holder or not |
| `Waitlist.Core.Search` | lib/lineup/src/scheduler.rs:221-222 | finds the entry or its place |
| `Waitlist.Core.WaitlistInsert` | lib/lineup/src/scheduler.rs:218-226 | keeps the list strictly descending; panics exactly for an entry that is there |
| `Waitlist.Core.WaitlistRemove` | lib/lineup/src/scheduler.rs:212-215 | removes exactly the entries of the thread, in order |
| `Waitlist.RetainDescending` | lib/lineup/src/scheduler.rs:212-215 | removing keeps the order |
| `Waitlist.Core.CheckWakeups` | lib/lineup/src/scheduler.rs:393-400 | with a clock that does not go back, wakes exactly the threads whose deadline has passed at the last reading, earliest first |
| `FileModule.Ceil` | kernel/src/fs/file.rs:249-255 | the least number of buffers that hold the bytes |
| `FileModule.OffsetToBuffernum` | kernel/src/fs/file.rs:260-262 | the buffer an offset lies in |
| `FileModule.File.GetSize` | kernel/src/fs/file.rs:50-74 | the length of the contents, also with empty buffers at the end |
| `FileModule.NewBuffers` | kernel/src/fs/file.rs:117-143 | the new buffers hold exactly the missing zeros, or memory ran out |
| `FileModule.File.IncreaseFileSize` | kernel/src/fs/file.rs:83-145 | grows by zeros, fails exactly for lack of memory, and then has filled the last page |
| `FileModule.File.ReadFile` | kernel/src/fs/file.rs:150-186 | copies exactly the slice, and leaves the rest of the user's buffer alone |
| `FileModule.File.WriteFile` | kernel/src/fs/file.rs:192-239 | zeros up to the offset, then the data, or the exact state a failure leaves |
| `FileModule.File.Copy` | kernel/src/fs/file.rs:209-236 | the copying loop across buffers overlays the contents |
| `FileModule.File.FileTruncate` | kernel/src/fs/file.rs:242-244 | empties the file |
| `FileModule.WrittenBytes` | kernel/src/fs/file.rs:192-239 | what was written is read back, and every other byte is as before or zero |
| `FileModule.WritesCommute` | kernel/src/fs/file.rs:192-239 | writes to separate ranges commute |
| `MemNodeModule.MemNode.Write` | kernel/src/fs/mnode.rs:72-81 | permission, then memory, then the written contents |
| `MemNodeModule.MemNode.Read` | kernel/src/fs/mnode.rs:84-114 | exactly the bytes from the offset to the end of the file or of the buffer, the number of them, and the rest of the buffer as it was; the error for an invalid offset is unreachable |
| `MemNodeModule.MemNode.Truncate` | kernel/src/fs/mnode.rs:127-137 | permission, then an empty file |
| `MemNodeModule.SliceJoin` | kernel/src/fs/mnode.rs:92-113 | reading on from where a read stopped continues it: no byte is lost or returned twice between the two |
| `MemNodeModule.Slice` | kernel/src/fs/mnode.rs:92-113 | byte i of a read is byte offset + i of the file, and there are as many as the file and the request have |
| `MemNodeModule.HasBit` | lib/kpi/src/io.rs:69-88 | a flag is tested by its own bit, whatever the others are |
| `Cnrfs.FirstFree` | kernel/src/fs/fd.rs:21-28 | the lowest free descriptor |
| `Cnrfs.Hash` | kernel/src/cnrfs.rs:52-75 | the logs an operation goes to, each once and in order |
| `Cnrfs.LogsInTurn` | kernel/src/cnrfs.rs:52-75 | files created one after the other go to the logs in turn |
| `Cnrfs.KernelNode.AllocateFd` | kernel/src/fs/fd.rs:21-28 | takes the lowest free descriptor |
| `Cnrfs.KernelNode.DeallocateFd` | kernel/src/fs/fd.rs:30-41 | frees an open descriptor, and only that |
| `Cnrfs.KernelNode.Create` | kernel/src/fs/mod.rs:183-205 | a new name with the next mnode number and a node of its own, or an error and no change |
| `Cnrfs.KernelNode.Delete` | kernel/src/fs/mod.rs:246-261 | name and node go together, unless the name is unknown or the node still referenced |
| `Cnrfs.KernelNode.Truncate` | kernel/src/fs/mod.rs:263-271 | the pages of the one file are dropped if it may be written; no other file changes |
| `Cnrfs.KernelNode.Rename` | kernel/src/fs/mod.rs:273-293 | the effect and error of a rename |
| `Cnrfs.KernelNode.WriteNode` | kernel/src/fs/mod.rs:207-212 | the pages of the one file afterwards hold the written contents, or the exact contents a lack of memory leaves; no other file changes |
| `Cnrfs.KernelNode.Open` | kernel/src/cnrfs.rs:461-498 | on paged files what the function on contents says, whose meaning is stated by `CnrfsIndex.ApplyFds`, `CnrfsIndex.OpenMeaning` and `CnrfsCalls.SucceedsIff`; the descriptor taken for a failing open is given back |
| `Cnrfs.KernelNode.Write` | kernel/src/cnrfs.rs:500-537 | on paged files what the function on contents says: at the offset given, the end of the file or the cursor, and exactly when memory runs out |
| `Cnrfs.KernelNode.Read` | kernel/src/cnrfs.rs:360-395 | the user's buffer gets the bytes the function on contents says, which are those of `CnrfsCalls.ReadMeaning`, and the cursor moves by as many |
| `Cnrfs.KernelNode.DispatchMut` | kernel/src/cnrfs.rs:445-578 | paged files refine contents: state and response of every logged operation, and what a write short of memory leaves |
| `CnrfsConvergence.Unshared` | kernel/src/cnrfs.rs:52-75 | operations without a common log are writes whose mnodes have different logs |
| `CnrfsConvergence.WritesApart` | kernel/src/cnrfs.rs:500-537 | such writes commute, with the same responses |
| `CnrfsConvergence.SwapFront` | kernel/src/cnrfs.rs:445-578 | swapping two neighbours without a common log changes nothing |
| `CnrfsConvergence.MoveRight` | kernel/src/cnrfs.rs:445-578 | nor does moving one past many |
| `CnrfsConvergence.Converge` | kernel/src/cnrfs.rs:445-578 | any two orders that agree on operations with a common log give the same state and the same response to every operation, panics included, if every write goes to the log of its descriptor |
| `CnrfsConvergence.StaleMnodeDiverges` | kernel/src/cnrfs.rs:159-187 | a write in the wrong log: another one, in the right log, against which the order changes the file |
| `CnrfsConvergence.StaleOrdersDiverge` | kernel/src/cnrfs.rs:159-187 | so two orders that agree on all common logs end in different states |
| `CnrfsConvergence.IrrelevantIffCarried` | kernel/src/cnrfs.rs:52-75 | the order of a write against all writes without a common log is irrelevant exactly if it is in the log of its descriptor |
| `CnrfsConvergence.Replay` | kernel/src/cnrfs.rs:445-578 | a replica with paged files that applies operations in an order holds what that order of the functions gives |
| `CnrfsConvergence.Replicate` | kernel/src/cnrfs.rs:445-578 | two such replicas from the start, each in its own order, hold the same files and give the same responses |
| `CnrfsIndex.CreateIndex` | kernel/src/fs/mod.rs:183-205 | creating adds one name to the map of files |
| `CnrfsIndex.DeleteIndex` | kernel/src/fs/mod.rs:246-261 | deleting removes one |
| `CnrfsIndex.RenameIndex` | kernel/src/fs/mod.rs:273-293 | renaming moves the node, drops the old target, and leaves all other files alone |
| `CnrfsIndex.RenameToItself` | kernel/src/fs/mod.rs:280-291 | renaming a file to itself deletes it and fails |
| `CnrfsIndex.OpenMeaning` | kernel/src/cnrfs.rs:461-498 | what opening does to the files: it creates an empty one, truncates or leaves alone |
| `CnrfsIndex.WriteMeaning` | kernel/src/cnrfs.rs:500-537 | a write changes the one file its descriptor names, at the offset given, the end of the file or the cursor, and reports its length |
| `CnrfsIndex.FailureMeaning` | kernel/src/cnrfs.rs:445-578 | a failing operation changes nothing, exactly unless it renames a file to itself |
| `CnrfsIndex.ApplyMeaning` | kernel/src/cnrfs.rs:445-578 | every operation keeps names and nodes in bijection and acts on the map from names to contents, and on the descriptors, as its name says |
| `CnrfsIndex.ApplyFds` | kernel/src/cnrfs.rs:445-578 | descriptors: an open takes the lowest free one, which then names the opened file with the given flags and its cursor at zero; a write moves its own cursor only; a close frees one; a new process has all free, a removed one has none; all others are as they were |
| `CnrfsIndex.BootIndex` | kernel/src/fs/mod.rs:135-172 | the initial file system |
| `CnrfsIndex.RunIndex` | kernel/src/fs/mod.rs:183-318 | the bijection over every run |
| `CnrfsIndex.NeverReused` | kernel/src/fs/mod.rs:177-179 | mnode numbers are never used again |
| `CnrfsIndex.DeadDescriptor` | kernel/src/cnrfs.rs:360-537 | a descriptor that outlived its file reaches no other file, in any later state |
| `CnrfsIndex.ReadKeepsReplica` | kernel/src/cnrfs.rs:377-391 | a read leaves a replica unchanged exactly if it moves no cursor |
| `CnrfsIndex.ReadsConcatenate` | kernel/src/cnrfs.rs:360-395 | any run of reads at the cursor returns consecutive pieces of the file (all of it: `CnrfsCalls.ReadsWhole`) |
| `CnrfsIndex.AppendsConcatenate` | kernel/src/cnrfs.rs:516-531 | any run of appending writes, through any descriptors, appends them all in order |
| `CnrfsCalls.SucceedsIff` | kernel/src/cnrfs.rs:445-578 | for every operation exactly when it succeeds, in terms of names, descriptors and permissions |
| `CnrfsCalls.RefusedIff` | kernel/src/cnrfs.rs:445-578 | for every error exactly which operations it answers, and exactly when the node panics |
| `CnrfsCalls.ReadMeaning` | kernel/src/cnrfs.rs:360-395 | byte for byte what a read returns, that its cursor moves by as many, and that nothing else changes |
| `CnrfsCalls.ReadRefused` | kernel/src/cnrfs.rs:360-395 | every read that is not permitted: no bytes, no change, and which error |
| `CnrfsCalls.ReadsWhole` | kernel/src/cnrfs.rs:360-395 | reads at the cursor that ask for enough return the whole rest of the file |
| `CnrfsCalls.ReadBack` | kernel/src/cnrfs.rs:360-537 | after a successful write, at any kind of offset, a read at that place through any descriptor of the file returns the data |
| `CnrfsCalls.OpenThenRead` | kernel/src/cnrfs.rs:360-498 | the first read after opening a name returns the first bytes of that file |
| `CnrfsCalls.WritesConcatenate` | kernel/src/cnrfs.rs:500-537 | any run of writes at the cursor comes to one write of all their data |
| `DetMem.TakeKeeps` | kernel/src/memory/detmem.rs:80-87 | answering from the queue |
| `DetMem.FillKeeps` | kernel/src/memory/detmem.rs:91-109 | allocating a batch under the lock |
| `DetMem.PushKeeps` | kernel/src/memory/detmem.rs:110-136 | one round of the pushing loops, of success or failure |
| `DetMem.ExecKeeps` | kernel/src/memory/detmem.rs:75-138 | the invariant over every interleaving of the nodes |
| `DetMem.RunDeterministic` | kernel/src/memory/detmem.rs:75-138 | while no allocation fails, request k is answered from batch k on every node, layouts match, and no two answers are the same memory |
| `DetMem.AccountsIffAllOk` | kernel/src/memory/detmem.rs:110-136 | between fills every node has had one entry per batch, exactly if no allocation has failed |
| `DetMem.OverflowIffLagging` | kernel/src/memory/detmem.rs:113-119 | a push finds its queue full exactly if that node lags by the capacity |
| `DetMem.LeaderAlone` | kernel/src/memory/detmem.rs:88-136 | an undisturbed request that finds its queue empty: it is answered with what was allocated for its node, every other node gets its own pointer queued, or every node a null if one allocation failed |
| `DetMem.FollowerAlone` | kernel/src/memory/detmem.rs:80-87 | one that finds it filled is answered from its front, and a wrong layout there is noticed |
| `DetMem.LateFollower` | kernel/src/memory/detmem.rs:93-99 | so is one that finds it filled once it has the lock, which it gives back |
| `DetMem.FailureSplitsNodes` | kernel/src/memory/detmem.rs:120-136 | from the start: after a failure elsewhere the leader answers with its freed pointer, and every queue, its own too, gets a null |
| `Frames.SplitAt` | kernel/src/memory/mod.rs:995-1006 | two parts that make up the frame, for the sizes the source asserts |
| `Frames.SplitAtNearestLargePageBoundary` | kernel/src/memory/mod.rs:976-986 | and with the upper part aligned |
| `Frames.NextPage` | kernel/src/memory/mod.rs:1090-1106 | the page iterator takes the lowest page off |
| `Frames.Refine` | kernel/src/memory/mod.rs:995-1006 | replacing a frame by separate parts of it gives no byte a second owner |
| `MCacheModule.MCache.AddBasePages` | kernel/src/memory/mcache.rs:111-116 | the pages that go into the cache, as many as fit |
| `MCacheModule.MCache.AddLargePages` | kernel/src/memory/mcache.rs:118-132 | the same for large pages |
| `MCacheModule.MCache.Populate` | kernel/src/memory/mcache.rs:100-160 | aligned, separate parts of the frame, and exactly how many of each size |
| `MCacheModule.MCache.Populate4kFirst` | kernel/src/memory/mcache.rs:77-89 | the same, asking only for the large pages that the room for base pages leaves over |
| `MCacheModule.MCache.Populate2mFirst` | kernel/src/memory/mcache.rs:95-98 | the same, with the share of large pages stated by `MCacheModule.MostlyLargeShare` |
| `MCacheModule.MostlyLargeShare` | kernel/src/memory/mcache.rs:91-98 | of two or more large pages' worth of memory 87 of 100, rounded down, become large pages, but at least one |
| `MCacheModule.BaseFirstShare` | kernel/src/memory/mcache.rs:77-89 | base pages first: more than one large page only if the cache still gets all the base pages it can hold, and less than two large pages' worth beyond those |
| `MCacheModule.NothingMissing` | kernel/src/memory/mcache.rs:100-160 | base and large pages together are the whole frame |
| `MCacheModule.MCache.AllocateBasePage` | kernel/src/memory/mcache.rs:246-252 | hands one page over |
| `MCacheModule.MCache.AllocateLargePage` | kernel/src/memory/mcache.rs:264-270 | hands one page over |
| `MCacheModule.MCache.ReleaseBasePage` | kernel/src/memory/mcache.rs:254-262 | takes one page over, or says exactly why not |
| `MCacheModule.MCache.ReleaseLargePage` | kernel/src/memory/mcache.rs:272-280 | takes one page over, or says exactly why not |
| `MCacheModule.MCache.GrowBasePages` | kernel/src/memory/mcache.rs:288-299 | takes over a prefix of the list, all of it unless the cache fills up |
| `MCacheModule.MCache.GrowLargePages` | kernel/src/memory/mcache.rs:305-316 | the same for large pages |
| `MCacheModule.MCache.ReapBasePages` | kernel/src/memory/mcache.rs:321-330 | gives as many pages away as the list and the cache allow |
| `MCacheModule.MCache.ReapLargePages` | kernel/src/memory/mcache.rs:333-342 | the same for large pages |
| `MCacheModule.TryRefill` | kernel/src/memory/mod.rs:281-331 | never overfills the core's cache, loses no page even when the node runs out midway, and fails exactly then |
| `GlobalMemory.EarlyCaches` | kernel/src/memory/mod.rs:690-716 | the early caches, each with one large page and more than 64 base pages, and what is left of the frames |
| `GlobalMemory.BackingPages` | kernel/src/memory/mod.rs:724-740 | every early cache gives the large page its node's big cache needs, and keeps its base pages |
| `GlobalMemory.NodeCaches` | kernel/src/memory/mod.rs:742-758 | each frame goes to its own node, once |
| `GlobalMemory.ServedIff` | kernel/src/memory/mod.rs:690-716 | on sorted frames every node is served exactly if it has a frame with room for its early memory, and from the first such frame |
| `GlobalMemory.BootableIff` | kernel/src/memory/mod.rs:674-722 | the tests of the set-up amount to a condition on the boot frames alone |
| `GlobalMemory.New` | kernel/src/memory/mod.rs:674-761 | from disjoint boot frames: it succeeds exactly if they are sorted by node, of at most twelve nodes, every node has a frame with room for its early memory, and the first such frame does not start at address zero; then no byte is in two caches, every page is aligned and of its node, and a big cache gets all but the early memory unless one of its stacks is full |
| `MemoryRuns.Machine.Perform` | kernel/src/memory/mcache.rs:245-343 | every operation conserves the pages of all caches and clients together |
| `MemoryRuns.Machine.Run` | kernel/src/memory/mcache.rs:245-343 | so does any run, and what clients hold are single aligned pages |
| `MemoryRuns.Assemble` | kernel/src/memory/mod.rs:674-761 | the machine after set-up owns exactly the pages of the caches that were set up |
| `MemoryRuns.BootAndRun` | kernel/src/memory/mod.rs:674-761 | from disjoint boot frames through set-up and any run: no byte has two owners among backing pages, caches and clients, everything lies in boot memory of its node, and clients hold aligned pages |
| `TxQueueModule.Visible` | lib/vmxnet3/src/var.rs:389-412 | the device's generation test tells written descriptors from old ones, less than a round ahead |
| `TxQueueModule.Distance` | lib/vmxnet3/src/var.rs:368-372 | wrapping subtraction and mask give the distance around the ring |
| `TxQueueModule.WriteChain` | lib/vmxnet3/src/var.rs:389-430 | every ring that memory goes through, each by one write from the one before, shows the device the old descriptors and no more; the ring is never full |
| `TxQueueModule.PutChain` | lib/vmxnet3/src/var.rs:389-441 | the same until the last write, which completes the packet |
| `TxQueueModule.TxQueue.constructor` | lib/vmxnet3/src/var.rs:314-341 | an empty queue |
| `TxQueueModule.TxQueue.Len` | lib/vmxnet3/src/var.rs:343-348 | the number of segments of the chains in flight |
| `TxQueueModule.TxQueue.CanEnqueue` | lib/vmxnet3/src/var.rs:462-464 | true exactly if enqueuing that many segments succeeds |
| `TxQueueModule.TxQueue.Enqueue` | lib/vmxnet3/src/var.rs:377-444 | accepts exactly what fits; until the last of its writes the device finds, from wherever it stands, what it found before, and then the whole packet; what an empty chain breaks |
| `TxQueueModule.ReadPacket` | lib/vmxnet3/src/var.rs:377-444 | a device that follows the generation bits reads, from any ring that shows it, exactly the chain that was enqueued, as the length field holds it |
| `TxQueueModule.DeviceDuring` | lib/vmxnet3/src/var.rs:389-441 | in any ring that shows the log a device at packet k finds one exactly if it has been enqueued |
| `TxQueueModule.SentWhole` | lib/vmxnet3/src/reg.rs:234-239 | a chain is sent as it was enqueued exactly if every length fits into 14 bits |
| `TxQueueModule.TxQueue.Transmit` | lib/vmxnet3/src/var.rs:377-444 | it sends every packet once and in order, and completes it |
| `TxQueueModule.TxQueue.Reap` | lib/vmxnet3/src/var.rs:499-523 | a completion always names the end of the oldest chain in flight |
| `TxQueueModule.TxQueue.CanDequeue` | lib/vmxnet3/src/var.rs:487-530 | processes all completions, or one |
| `TxQueueModule.TxQueue.Dequeue` | lib/vmxnet3/src/var.rs:466-476 | returns every chain exactly once, in the order of enqueuing |

## Left out

- Weak memory orderings, and wrap-around of the 64-bit ticket and reader counters: atomics are sequentially consistent and counters unbounded.
- The UEFI allocator, ELF loading, hardware, system calls and the network stack.
- The replication library itself: a replica is assumed to apply each log in order.
- `map_identity` and the other callers of `map_generic`: easy members.
- `VSpaceModule.VSpace.AllocateOnePage`: a fresh address is chosen by the model; that firmware hands out zeroed pages is taken for granted.
- `VSpaceModule.VSpace.MapGeneric`: a request that ends above 2^48, where the index into the top table wraps around; and rights are those of the last entry: the tables above it are never marked for user access.
- `LineupMutex.RunSafe`: interrupts are excluded, because they break exclusion; joins, timeouts, thread exit and the spawning of threads are not modelled, so the only way to sleep is the mutex. Which interrupts are harmless, as long as threads that take mutexes get none, is not stated.
- `LineupRwLock.RunSafe`: its two mutexes are abstract locks with an owner, which is what the mutex model shows them to be; a thread that calls `exit` holds the lock.
- Semaphores and condition variables of the scheduler.
- `Cnrfs.KernelNode.DispatchMut`: names, nodes and descriptors can be allocated, nobody else holds a reference to a deleted mnode, and explicit offsets are not negative; running out of memory is modelled for the pages of files.
- `CnrfsConvergence.Converge`: for logged operations; reads are not logged.
- `CnrfsConvergence.IrrelevantIffCarried`: for writes of at least one byte; an empty write in the wrong log may or may not matter.
- `FileModule.File.IncreaseFileSize`: appending the new buffers counts as an allocation also where the list has spare capacity.
- `FileModule.File.WriteFile`: offsets near the end of the 64-bit range are not modelled, sizes being unbounded.
- `Cnrfs.KernelNode`: locks around nodes are not modelled, as operations of one log do not overlap.
- `DetMem.RunDeterministic`: the underlying allocator never hands out memory twice; freeing is not modelled.
- `GlobalMemory.New`: memory beyond the capacity of a stack is lost, and how much is not stated; zeroing the backing page is not modelled.
- `TxQueueModule.TxQueue.Enqueue`: a segment of 4 GiB or more, whose length the source refuses to convert in the middle of a packet.
- `TxQueueModule.TxQueue.Transmit`: the device completes packets in order and every one of them, whether a completion was requested or not; `flush` and its register are not modelled.
- The receive queue.
- `Waitlist.Core.CheckWakeups`: the race with a wakeup from another core, which the source notes, is not modelled.
