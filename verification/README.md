# Guest runtime: locks, memory, linker, threads and unwinder

This project models the parts of `Runtime/` that decide whether a guest program keeps running correctly, and proves
properties of the model for all inputs, all runs and all interleavings. Two kinds of model are used.

- **State machines** for code that several threads enter at once. Each callback into the shared guest word or the host
  is one atomic step of one thread, and any number of threads interleave: the futex host (`FutexRuns`), the bionic
  mutex (`MutexProtocol`, `MutexSafety`, `MutexTheorems`, `MutexResults`), condition variables (`CondRuns`,
  `CondAnswers`), `pthread_once` (`OnceProtocol`, `OnceAnswers`) and the thread lifecycle (`ThreadLifecycle`,
  `ThreadAnswers`, `ThreadShutdown`). The invariants are proved step by step and then for every run.
- **Classes and loops** for code that changes its own state in place: the futex host object, the region array
  (`GuestVma.Space`), the page table, the mmap layer, the heap's two page sources, the ELF loader, the dynamic linker,
  the unwinder, the JNI method table and thread-local storage. Each method is proved against a specification function
  or a predicate on the old and new state, and lemmas prove what those specifications are for.

Callbacks that the runtime does not control (guest memory writes, allocations, file operations, guest functions) may
fail at any time. A ghost counter records each failure, so that a contract can say that an operation fails only for the
stated reason or because a callback failed: `faults` in `GuestMmap.Context` and `Tls.Storage`, `refusals` and `faulted`
in `DynamicLinker.Linker`, `shortages` in `JniMethods.Table`.

## The main results

- **Mutex.** On every run of any number of threads at most one holds the mutex, the word names the holder and counts
  its depth, n locks are undone by exactly n unlocks, and no wake-up is lost. For the types that record an owner this
  needs the 16-bit owner ids to be distinct and nonzero, and exactly that once two threads are able to lock:
  `MutexTheorems.ExclusiveIffOwnersDistinct`. An access of the word that fails breaks none of this except the wake-up:
  `MutexTheorems.FaultLosesWakeup` loses one, and only faults do. `MutexResults` says what every call returns: 0
  exactly if it took or gave back a level, and which error in every other case.
- **Futex tokens.** Tokens are conserved and never exceed the sleepers, but they are not targeted: a late waiter can
  take a token published for another thread (`FutexRuns.LateWaiterTakesTheToken`). A wake reaches the threads asleep
  at that moment, until somebody else parks there, exactly if it leaves as many tokens as sleepers
  (`FutexRuns.ServedIff`), and every later park ends that guarantee (`FutexRuns.LateParkEndsIt`).
- **Once and condition variables.** At most one initialiser runs, at most one succeeds, 0 is only returned after it.
  As long as no store of an outcome faults nobody is left asleep; after one that does, no call ever returns 0 again
  (`OnceProtocol.LostForever`). `OnceAnswers` and `CondAnswers` say exactly what each call returns. A waiter falls
  asleep on a condition variable exactly if no pulse came since it read the word, up to multiples of 2^31, and a
  broadcast gives every sleeper a token.
- **Address space.** The region array is the unique sorted, disjoint, coalesced form of a page map; map, unmap and
  protect are set, clear and overwrite on that map; first fit is least and complete. The interpreter's page table
  mirrors it on every page ever touched. Growth of the array is taken to succeed there; `VmaGrowth` says exactly when
  unmap and split need it, and what part of the mapping is lost when it fails.
- **Heap and ELF loader.** The break and the downward search never replace anybody's page. The search is not complete;
  `Heap.SearchFindsIff` says exactly what it finds. Blocks handed out by the heap stay readable, writable and apart
  from each other and from the break until they are given back (`HeapRuns`). Loading puts each byte where the file
  says, grants exactly the access that the header flags name, touches nothing outside a previously free range, and
  unloading restores the region list exactly.
- **Dynamic linker.** References are needed-edges plus open handles, the needed graph is acyclic, loading ends even on
  cyclic `DT_NEEDED` entries, and a load succeeds exactly if the dependency closure is available and acyclic and no
  file operation fails. Constructors run once and after those of all dependencies, and of two finalized libraries the
  one that needs the other, directly or through others, goes first; inside one library the functions run in the order
  that `InitFunctions.LogInOrder` spells out. dlclose undoes dlopen: the same files are loaded with the same counts as
  before, and at most host libraries stay (`LinkRestore.CloseRestores`, `DynamicLinker.OpenAndClose`). The error path
  of `load_library` removes the last list entry, whatever it is. So "a failed load leaves a sound list" is false of
  the code: if no file operation fails, the list keeps a freed library exactly if some library on the way has a need
  that must be loaded placed before its first missing one (`LinkDangling.Dangles`, the contract of
  `DynamicLinker.Linker.Dlopen`); `DynamicLinker.OpenWithMissing` is the concrete case.
- **Threads and TLS.** Each host thread gets at most one successful join or detach, a join yields its value, and after
  shutdown only the entry record is left. "Shutdown always returns" is false of the code: `register_current` accepts
  any nonzero guest id, no host thread ever ends such a record, and shutdown sleeps on it for ever
  (`ThreadShutdown.ShutdownSleepsForever`). It can return exactly if no such record is left, in particular if only
  guest id 1 is ever registered (`ThreadShutdown.ReturnsIffNoStray`, `ThreadShutdown.EntryOnlyHasNoStray`).
  `ThreadAnswers` says what each call answers; in particular nobody ever waits for himself. An unallocated key reads
  as zero in every thread, so a reused key starts at NULL. The cleanup of a thread goes on until a pass calls nothing
  or four are done, and any value set before the last pass gets its destructor called unless somebody else touches it.
- **Unwinder.** Executing the descriptor of a prologue on the state after it restores the saved registers and the
  stack pointer, also from a frame pointer with the stack pointer moved anywhere (`EhabiFrame`). Of a stack with known
  bounds it reads only words that lie wholly inside them (`EhabiStack`). Decoding consumes at least one byte per step;
  opcode 0xb2 is the one exception when its operand runs past the descriptor, because the filler byte 0xb0 has bit 7
  set: the C loop then never ends, which the model reports as `Diverges`. `EhabiDiverge` proves that this is exactly
  when the loop reads on for ever, says which descriptors get there, and gives one: the single word 0x80b28080.
- **Method table and dependency fixpoint.** Probing finds exactly what a scan finds, handles are stable and injective;
  the invalidation loop computes the greatest fixpoint whatever the visiting order.

## Model

| member | source | states |
|---|---|---|
| Futex.EnterEffect | Runtime/Bionic/agr_futex_host.cpp:57-65 | A new waiter keeps every queue sound: no more tokens than sleepers, no empty queue kept |
| Futex.LeaveEffect | Runtime/Bionic/agr_futex_host.cpp:77-83 | Leaving takes one waiter and at most one token of its own queue and no other; the queue is dropped exactly when the last waiter is gone, so no token is lost with it |
| Futex.WakeEffect | Runtime/Bionic/agr_futex_host.cpp:94-97 | The unsigned subtraction never underflows: a wake of an address with sleepers always leaves a token, and a large enough wake leaves one for every sleeper |
| Futex.FutexHost.BeginWait | Runtime/Bionic/agr_futex_host.cpp:47-65 | The check and the enqueue are one step: which of the five refusals applies, in the source's order, and that a refused call changes nothing |
| Futex.FutexHost.EndWait | Runtime/Bionic/agr_futex_host.cpp:67-84 | Result and new state of a returning waiter: a token is taken only if there is one, cancellation wins over success, an empty queue is erased |
| Futex.FutexHost.WakeUp | Runtime/Bionic/agr_futex_host.cpp:86-99 | Wakes publish min(maximum, waiters - pending) tokens; a bad address changes nothing |
| Futex.FutexHost.Cancel | Runtime/Bionic/agr_futex_host.cpp:40-45 | Cancelling only sets the closing flag, and publishes no token |
| FutexRuns.RunKeepsInv | Runtime/Bionic/agr_futex_host.cpp:47-99 | On every run each queue's waiter count is the number of threads asleep on it, and published tokens are taken tokens plus pending ones |
| FutexRuns.TokensConserved | Runtime/Bionic/agr_futex_host.cpp:47-99 | On every run, for every address: published = taken + pending, pending never exceeds the sleepers, and a queue exists exactly while somebody sleeps on it |
| FutexRuns.WakeNeverOverfills | Runtime/Bionic/agr_futex_host.cpp:86-99 | On every run a wake returns the number asked for or the number of sleepers without a token, whichever is less |
| FutexRuns.WaitBegins | Runtime/Bionic/agr_futex_host.cpp:47-65 | On every run, which of the five refusals a wait gets, in the order of the code, or that it sleeps |
| FutexRuns.WaitEnds | Runtime/Bionic/agr_futex_host.cpp:67-84 | On every run a sleeper that goes on answers -ECANCELED exactly if the host is closing, otherwise 0 exactly if it took a token and -ETIMEDOUT exactly if there was none; a wait without a timeout never answers that |
| FutexRuns.AnswerStays | Runtime/Bionic/agr_futex_host.cpp:47-84 | What a wait has answered depends on no later event |
| FutexRuns.LateWaiterTakesTheToken | Runtime/Bionic/agr_futex_host.cpp:65-79 | Tokens are not targeted: for every address a run in which a thread that came after the wake takes the only token and the earlier sleeper stays without |
| FutexRuns.ServedStays | Runtime/Bionic/agr_futex_host.cpp:65-97 | Once there are as many tokens as sleepers on an address, every sleeper there stays able to return in every run in which nobody else parks there |
| FutexRuns.WakeServesAll | Runtime/Bionic/agr_futex_host.cpp:86-99 | A wake for at least the sleepers without a token brings that about |
| FutexRuns.OthersReturnFirst | Runtime/Bionic/agr_futex_host.cpp:67-84 | With fewer tokens than sleepers, for each sleeper a continuation in which others return first and it is left without a token |
| FutexRuns.ServedIff | Runtime/Bionic/agr_futex_host.cpp:65-97 | A sleeper can return in every continuation without a new sleeper exactly if there are as many tokens as sleepers |
| FutexRuns.LateParkEndsIt | Runtime/Bionic/agr_futex_host.cpp:65-79 | Whenever somebody else parks on the address while the host is open, some continuation leaves an earlier sleeper without a token |
| FutexRuns.CancelReleasesEveryone | Runtime/Bionic/agr_futex_host.cpp:40-45 | After a cancellation nobody new falls asleep and every sleeper may return |
| LockWord.DecodeEncode | Runtime/Bionic/agr_bionic_sync.cpp:39-47 | The mutex word's fields do not overlap: reading a packed word back gives the fields it was packed from |
| LockWord.EncodeInjective | Runtime/Bionic/agr_bionic_sync.cpp:39-47 | Two words are equal exactly if all fields are, so comparing words compares owner, type, shared bit, counter and state |
| LockWord.InitialWords | Runtime/Bionic/agr_bionic_sync.cpp:70-77 | The six attribute values that init accepts and the words it stores for them |
| LockWord.PackedUpdates | Runtime/Bionic/agr_bionic_sync.cpp:116-160 | What masking, the exclusive or with 3 and or-ing owner and state do to the packed word, against the field updates of the protocol |
| LockWord.CountUp | Runtime/Bionic/agr_bionic_sync.cpp:145 | Adding 4 to the packed word is one recursion level more and touches no other field, except at a full counter, where it would carry into the shared bit |
| LockWord.CountDown | Runtime/Bionic/agr_bionic_sync.cpp:208 | Subtracting 4 from a word with a nonzero counter is one level less and touches no other field |
| LockWord.SubtractOne | Runtime/Bionic/agr_bionic_sync.cpp:196 | Subtracting 1 from a locked word lowers the lock state and touches no other field |
| MutexSafety.OwnerIsHolder | Runtime/Bionic/agr_bionic_sync.cpp:134-164 | Under the invariant the owner field names a thread exactly if that thread holds an owned mutex, and the word is the unlocked one exactly if nobody holds it |
| MutexSafety.NormalCasKeepsInv | Runtime/Bionic/agr_bionic_sync.cpp:117-120 | The fast path of a normal lock keeps the invariant, won or lost |
| MutexSafety.NormalExchangeKeepsInv | Runtime/Bionic/agr_bionic_sync.cpp:121-124 | Storing the contended word keeps the invariant whether it takes the lock or only marks it, also in an unlocker's gap between fetch-and-subtract and store |
| MutexSafety.BeginWaitKeepsInv | Runtime/Bionic/agr_bionic_sync.cpp:125-127 | Falling asleep keeps the no-lost-wake-up invariant: it happens only while the word is still marked contended |
| MutexSafety.EndWaitKeepsInv | Runtime/Bionic/agr_bionic_sync.cpp:161-163 | A woken or cancelled waiter keeps the invariant: whoever took a token looks at the word again |
| MutexSafety.OwnedFirstCasKeepsInv | Runtime/Bionic/agr_bionic_sync.cpp:134-138 | The first attempt of an owned lock keeps the invariant |
| MutexSafety.OwnedLoadKeepsInv | Runtime/Bionic/agr_bionic_sync.cpp:139-143 | The decision of the owned loop (recursion, deadlock, full counter, free, uncontended, contended) keeps the invariant, in which no ERRORCHECK mutex is held twice by its holder |
| MutexSafety.OwnedCountCasKeepsInv | Runtime/Bionic/agr_bionic_sync.cpp:144-147 | Taking one level more keeps counter = depth - 1 |
| MutexSafety.OwnedTakeCasKeepsInv | Runtime/Bionic/agr_bionic_sync.cpp:149-154 | Taking a free owned mutex from the slow path keeps the invariant, and marks it contended so that later sleepers are woken |
| MutexSafety.OwnedMarkCasKeepsInv | Runtime/Bionic/agr_bionic_sync.cpp:155-160 | Marking the holder's word as contended keeps owner and counter |
| MutexSafety.TryCasKeepsInv | Runtime/Bionic/agr_bionic_sync.cpp:182-187 | trylock takes only a free mutex |
| MutexSafety.TryCountKeepsInv | Runtime/Bionic/agr_bionic_sync.cpp:176-180 | The recursive trylock loop keeps counter = depth - 1 under concurrent marking |
| MutexSafety.UnlockSubtractKeepsInv | Runtime/Bionic/agr_bionic_sync.cpp:194-197 | The fetch-and-subtract of a normal unlock keeps the invariant: an uncontended word is free at once, a contended one still belongs to the unlocker |
| MutexSafety.UnlockStoreKeepsInv | Runtime/Bionic/agr_bionic_sync.cpp:198 | The store after it frees the mutex and leaves the unlocker owing a wake; nobody else can hold it in between |
| MutexSafety.UnlockCountCasKeepsInv | Runtime/Bionic/agr_bionic_sync.cpp:205-212 | Giving back one level keeps counter = depth - 1 under concurrent marking |
| MutexSafety.UnlockExchangeKeepsInv | Runtime/Bionic/agr_bionic_sync.cpp:213-215 | The last level of an owned unlock frees the mutex and wakes if it was contended |
| MutexSafety.UnlockWakeKeepsInv | Runtime/Bionic/agr_bionic_sync.cpp:199-215 | The wake of one sleeper pays what the unlocker owed |
| MutexSafety.FaultKeepsInv | Runtime/Bionic/agr_bionic_sync.cpp:113-217 | A failed access of the word, at any step, keeps the word, its holder and the queue in step; a contended unlock whose store fails has not given the lock back |
| MutexTheorems.RunKeepsInv | Runtime/Bionic/agr_bionic_sync.cpp:113-217 | Every state of every run of lock, trylock and unlock satisfies the invariant |
| MutexTheorems.MutualExclusion | Runtime/Bionic/agr_bionic_sync.cpp:113-217 | At most one thread holds the mutex, for every type and every interleaving |
| MutexTheorems.HolderWord | Runtime/Bionic/agr_bionic_sync.cpp:113-217 | While a thread holds it the word names that thread, the counter is its depth minus one, type and shared bit are the initial ones, and the depth is 1 unless the type is RECURSIVE, where it is at most 2048 |
| MutexTheorems.UnlockedIffBalanced | Runtime/Bionic/agr_bionic_sync.cpp:113-217 | The word is the unlocked one exactly if every thread has given back every level it took |
| MutexTheorems.NoLostWakeup | Runtime/Bionic/agr_bionic_sync.cpp:113-217 | Unless a fault has swallowed a wake-up: while a sleeper has no token, the word is contended, or an unlocker has yet to store or wake, or a token is pending, or a thread without the lock will look again |
| MutexTheorems.NoSleepOnFreeLock | Runtime/Bionic/agr_bionic_sync.cpp:113-217 | Under the same condition, on a free mutex with a sleeper some thread has an enabled step that takes a token, wakes or looks at the word again |
| MutexTheorems.NothingLost | Runtime/Bionic/agr_bionic_sync.cpp:113-217 | A run without faults swallows no wake-up |
| MutexTheorems.FaultLosesWakeup | Runtime/Bionic/agr_bionic_sync.cpp:193-199 | A run whose one fault is the store of a contended unlock: it ends with a sleeper without a token, the word marked uncontended, and every other thread idle |
| MutexTheorems.EqualOwnersBothEnter | Runtime/Bionic/agr_bionic_sync.cpp:65-67 | If two thread ids agree modulo 65536, a run of plain locks exists in which both hold a recursive mutex |
| MutexTheorems.EqualOwnersStealLock | Runtime/Bionic/agr_bionic_sync.cpp:200-215 | For every type that records an owner: a run in which a thread passes the owner test of unlock for a mutex locked by a thread with the same id, and then locks it too |
| MutexTheorems.ZeroOwnerFreesLock | Runtime/Bionic/agr_bionic_sync.cpp:200-215 | A thread with owner id 0 passes the owner test on a free mutex, so that its exchange can free the lock that another thread takes in between; two others are then inside |
| MutexTheorems.ExclusiveIffOwnersDistinct | Runtime/Bionic/agr_bionic_sync.cpp:113-217 | Once two threads are able to lock, all runs keep them apart exactly if the mutex is a normal one or the 16-bit owner ids of its threads are distinct and nonzero |
| MutexResults.ZeroMeansDone | Runtime/Bionic/agr_bionic_sync.cpp:113-217 | On every run lock and trylock return 0 exactly if they took one level, unlock exactly if it gave one back; otherwise the depth is as before |
| MutexResults.LockAnswers | Runtime/Bionic/agr_bionic_sync.cpp:113-164 | On every run lock by a holder returns EDEADLK (ERRORCHECK), EAGAIN (RECURSIVE at 2048 levels) or 0 with one level more; any other lock returns 0 unless the host is closing |
| MutexResults.TryLockAnswers | Runtime/Bionic/agr_bionic_sync.cpp:167-188 | The same for a holder that calls trylock; for others EBUSY exactly if somebody holds the mutex at its swap, and 0 otherwise |
| MutexResults.UnlockAnswers | Runtime/Bionic/agr_bionic_sync.cpp:190-217 | unlock returns 0 for a holder and EPERM for everybody else |
| MutexResults.RelockLeavesWord | Runtime/Bionic/agr_bionic_sync.cpp:139-147 | No step of a relock that is refused changes the word |
| MutexResults.StrangerRefused | Runtime/Bionic/agr_bionic_sync.cpp:203 | For any owner ids: unlock of an owned mutex ends with EPERM exactly if the caller's id is not in the owner field, and changes nothing |
| MutexResults.ZeroIdRefused | Runtime/Bionic/agr_bionic_sync.cpp:132-185 | A thread whose owner id is 0 gets EINVAL for locking an owned mutex |
| MutexResults.FaultAnswers | Runtime/Bionic/agr_bionic_sync.cpp:113-217 | A call that ends with a failed access returns EINVAL at its first one, EBUSY where trylock reads again, and EFAULT otherwise |
| CondPulse.PulseCounts | Runtime/Bionic/agr_bionic_sync.cpp:235-244 | n pulses lower the upper 31 bits by n modulo 2^31 and keep the shared bit |
| CondPulse.SameWordIff | Runtime/Bionic/agr_bionic_sync.cpp:239 | The word is back at an earlier value exactly after a multiple of 2^31 pulses |
| CondPulse.PulsedWaiterIsRefused | Runtime/Bionic/agr_bionic_sync.cpp:254-262 | A waiter that read the word before n pulses is refused by the futex unless n is a multiple of 2^31 |
| CondPulse.BroadcastWakesSleepers | Runtime/Bionic/agr_bionic_sync.cpp:245-253 | A broadcast leaves a token for every sleeper; a signal adds one if some sleeper has none |
| CondRuns.RunKeepsInv | Runtime/Bionic/agr_bionic_sync.cpp:235-271 | In every state of every run the word is the initial one after as many pulses as swaps succeeded, a waiter remembers the word as it was, and sleepers are counted |
| CondRuns.SleptOnLatest | Runtime/Bionic/agr_bionic_sync.cpp:258-262 | Between a waiter's reading of the word and its falling asleep there were no pulses, or a multiple of 2^31 |
| CondRuns.ParksIff | Runtime/Bionic/agr_bionic_sync.cpp:258-262 | A waiter that has read the word falls asleep exactly if there were none since, up to that multiple, the host is open and the timeout is not 0 |
| CondRuns.BroadcastReachesAll | Runtime/Bionic/agr_bionic_sync.cpp:245-253 | After a broadcast's wake everyone asleep may return, and whoever read the word before a pulse, less than 2^31 pulses ago, does not fall asleep on it |
| CondRuns.SignalReachesOne | Runtime/Bionic/agr_bionic_sync.cpp:245-250 | A signal publishes a token exactly if some sleeper has none |
| CondAnswers.WaitAnswers | Runtime/Bionic/agr_bionic_sync.cpp:254-270 | On every run a wait returns ETIMEDOUT exactly if its time was over, asleep or at once; woken, refused, cancelled or faulting it returns 0 |
| CondAnswers.PulseAnswers | Runtime/Bionic/agr_bionic_sync.cpp:235-247 | On every run signal and broadcast return 0 exactly after one pulse of their own followed by a wake of the number they were called for, and EFAULT exactly after none, at a failed access |
| CondAnswers.SwapIsOwnStep | Runtime/Bionic/agr_bionic_sync.cpp:238-245 | The word is pulsed by successful swaps only, one each |
| CondAnswers.FirstFault | Runtime/Bionic/agr_bionic_sync.cpp:235-258 | A call whose first read fails returns EINVAL and changes nothing |
| OnceProtocol.CasKeepsInv | Runtime/Bionic/agr_bionic_sync.cpp:280-283 | The compare-and-swap lets exactly one caller become the initialiser |
| OnceProtocol.WaitKeepsInv | Runtime/Bionic/agr_bionic_sync.cpp:284-286 | A caller sleeps only while another is initialising |
| OnceProtocol.StoreKeepsInv | Runtime/Bionic/agr_bionic_sync.cpp:288-297 | Publishing success or failure leaves a wake of all sleepers still owed |
| OnceProtocol.StoreFaultKeepsInv | Runtime/Bionic/agr_bionic_sync.cpp:288-296 | A store that faults leaves the word at initialising with nobody initialising |
| OnceProtocol.WakeAllKeepsInv | Runtime/Bionic/agr_bionic_sync.cpp:293-297 | The wake gives every sleeper a token |
| OnceProtocol.RunKeepsInv | Runtime/Bionic/agr_bionic_sync.cpp:273-299 | Every state of every run satisfies the invariant |
| OnceProtocol.InitialiserRunsAlone | Runtime/Bionic/agr_bionic_sync.cpp:273-299 | At most one thread is in the initialiser, at most one run of it succeeds, and none runs after that |
| OnceProtocol.ZeroMeansCompleted | Runtime/Bionic/agr_bionic_sync.cpp:279-298 | Once a caller has been told 0, the successful run is over and the word stays completed in every later state |
| OnceAnswers.OnceReturns | Runtime/Bionic/agr_bionic_sync.cpp:273-299 | Every way a call can end: 0 on reading the completed word, the code of its own initialiser, EFAULT at a failed access, ECANCELED on a closing host |
| OnceAnswers.ZeroIff | Runtime/Bionic/agr_bionic_sync.cpp:273-299 | A call returns 0 exactly if it read the completed word, or ran the initialiser with result 0 and stored that |
| OnceAnswers.FailureReported | Runtime/Bionic/agr_bionic_sync.cpp:288-295 | A failed initialiser's code is what its caller gets, whether or not the word could be reset |
| OnceAnswers.CompletedCall | Runtime/Bionic/agr_bionic_sync.cpp:277-280 | A call that begins on a completed word never runs the initialiser and returns 0, or EFAULT if it cannot read the word |
| OnceProtocol.CompletedForever | Runtime/Bionic/agr_bionic_sync.cpp:273-299 | The completed state is never left |
| OnceProtocol.NobodyStranded | Runtime/Bionic/agr_bionic_sync.cpp:284-297 | While no outcome was lost to a faulting store: an initialiser is active, or a wake of all is owed, or every sleeper holds a token |
| OnceProtocol.LostForever | Runtime/Bionic/agr_bionic_sync.cpp:279-297 | Once one was lost, nobody initialises again and no call ever returns 0, on every continuation |
| OnceProtocol.LostSleepsAgain | Runtime/Bionic/agr_bionic_sync.cpp:279-286 | From then on whoever looks at the word, undisturbed, falls asleep again |
| PageMap.CanonicalUnique | Runtime/Process/agr_guest_vma.c:56-69 | Two sorted, disjoint, coalesced lists that give every address the same protection are the same list |
| PageMapOps.ClearLook | Runtime/Process/agr_guest_vma.c:113-136 | Cutting a range out of a list clears exactly that range of the page map |
| PageMapOps.ClearCoalesced | Runtime/Process/agr_guest_vma.c:113-136 | Cutting keeps the list sorted, disjoint and coalesced |
| PageMapOps.MergeCanonical | Runtime/Process/agr_guest_vma.c:56-69 | Coalescing keeps the page map and yields the canonical list |
| PageMapOps.SplitLook | Runtime/Process/agr_guest_vma.c:208-223 | Splitting at a point does not change the page map |
| PageMapOps.SplitValid | Runtime/Process/agr_guest_vma.c:208-223 | Splitting at a page boundary keeps the list valid, and afterwards no region straddles the point |
| PageMapOps.RecolourLook | Runtime/Process/agr_guest_vma.c:245-250 | Recolouring regions that do not straddle the ends overwrites exactly the mapped pages of the range |
| PageMapOps.InsertLook | Runtime/Process/agr_guest_vma.c:43-54 | Inserting a region over free pages sets exactly those pages |
| GuestVma.Space.constructor | Runtime/Process/agr_guest_vma.c:71-85 | A new space is canonical and empty |
| GuestVma.Space.RoundLength | Runtime/Process/agr_guest_vma.c:11-18 | The 64-bit rounding is a true rounding up, and exactly the lengths whose sum would wrap are refused |
| GuestVma.Space.RangeFor | Runtime/Process/agr_guest_vma.c:93-104 | Exactly the aligned ranges inside the bounds are accepted; ENOMEM exactly for lengths whose rounding wraps, EINVAL for the rest |
| GuestVma.Space.UnmapOne | Runtime/Process/agr_guest_vma.c:114-135 | One round replaces one region by what is left of it outside the range: nothing, one piece or two |
| GuestVma.Space.UnmapRange | Runtime/Process/agr_guest_vma.c:113-136 | The loop leaves exactly the list with the range cut out |
| GuestVma.Space.Unmap | Runtime/Process/agr_guest_vma.c:106-138 | Succeeds exactly on acceptable ranges, with the exact code otherwise; clears exactly their pages, keeps the list canonical; failure changes nothing |
| GuestVma.Space.Coalesce | Runtime/Process/agr_guest_vma.c:56-69 | The in-place loop computes the coalesced list |
| GuestVma.Space.FindFirstFit | Runtime/Process/agr_guest_vma.c:140-155 | Returns the least aligned free range at or above hint and lower bound, and ENOMEM only if none exists, also where the 64-bit sum wraps |
| GuestVma.Space.FirstFitIs | Runtime/Process/agr_guest_vma.c:140-155 | What that means place by place: the address is free, and every lower aligned place at or above hint and lower bound has a mapped byte; ENOMEM means every place has one |
| GuestVma.Space.Overlaps | Runtime/Process/agr_guest_vma.c:157-165 | Reports exactly whether some page of the range is mapped |
| GuestVma.Space.InsertAndCoalesce | Runtime/Process/agr_guest_vma.c:197-203 | Sets exactly the new pages and keeps the list canonical |
| GuestVma.Space.MakeRoom | Runtime/Process/agr_guest_vma.c:181-190 | The fixed cases: refuse to replace with EEXIST, or clear the range; when each succeeds |
| GuestVma.Space.Map | Runtime/Process/agr_guest_vma.c:167-206 | For each combination of flags the exact code of every refusal (EEXIST exactly for a taken range under NOREPLACE), where it maps, and that it sets exactly those pages; failure changes nothing |
| GuestVma.Space.CutAt | Runtime/Process/agr_guest_vma.c:208-223 | The loop computes the split list, for points inside, between and beyond the regions |
| GuestVma.Space.Covered | Runtime/Process/agr_guest_vma.c:232-239 | Reports exactly whether every page of the range is mapped |
| GuestVma.Space.SetProtection | Runtime/Process/agr_guest_vma.c:245-250 | The loop recolours exactly the regions that meet the range |
| GuestVma.Space.Protect | Runtime/Process/agr_guest_vma.c:225-253 | Succeeds exactly if the range is acceptable and wholly mapped, with ENOMEM for an unmapped part; overwrites exactly its pages; failure changes nothing |
| GuestVma.Space.Find | Runtime/Process/agr_guest_vma.c:255-264 | Reads the page map: the region that holds the address, or nothing exactly if it is unmapped |
| GuestVma.Space.Validate | Runtime/Process/agr_guest_vma.c:266-280 | Accepts exactly the sorted, disjoint, aligned lists inside the bounds |
| VmaGrowth.RegionArray.EnsureCapacity | Runtime/Process/agr_guest_vma.c:20-33 | Fails only for want of room, and then leaves the capacity alone |
| VmaGrowth.RegionArray.InsertRegion | Runtime/Process/agr_guest_vma.c:43-54 | Inserts the region, or fails on a full array and changes nothing |
| VmaGrowth.RegionArray.CutMiddle | Runtime/Process/agr_guest_vma.c:121-129 | Cutting or splitting a region makes the hole, or, when the full array cannot grow, leaves the region shortened |
| VmaGrowth.UnmapGrowsIff | Runtime/Process/agr_guest_vma.c:113-136 | Unmapping needs one more region exactly if the range lies strictly inside one |
| VmaGrowth.SplitGrowsIff | Runtime/Process/agr_guest_vma.c:208-223 | Splitting needs one more exactly if the point lies strictly inside one |
| VmaGrowth.TailIsLost | Runtime/Process/agr_guest_vma.c:121-129 | The shortened list is canonical, and exactly the rest of that region is unmapped |
| VmaGrowth.FailedUnmapLoses | Runtime/Process/agr_guest_vma.c:121-129 | A failed unmap differs from a successful one exactly on the part of the region beyond the range |
| PageTable.Table.SetPagePermissions | Runtime/ArmInterpreter/src/mem.rs:266-273 | Which calls are accepted, and that exactly the pages of the range change |
| PageTable.Table.Allows | Runtime/ArmInterpreter/src/mem.rs:275-282 | True exactly if the range is above the null segment, inside memory, and every byte's page grants the access |
| PageTable.IncludesIsMask | Runtime/ArmInterpreter/src/mem.rs:275-281 | The access test on the three permission bits is the mask comparison of the code |
| GuestMmap.MirrorKept | Runtime/Bionic/agr_bionic_mmap.cpp:46-53 | If the regions are overwritten on a range and the same protection is published for its pages, the table still mirrors the regions on every page ever touched |
| GuestMmap.PageUniform | Runtime/Process/agr_guest_vma.c:93-104 | All bytes of a page have the same protection in a valid list |
| GuestMmap.Context.WriteZero | Runtime/Bionic/agr_bionic_mmap.cpp:55-64 | Zeroes exactly the range in page-sized chunks, or fails because a write failed |
| GuestMmap.Context.Fill | Runtime/Bionic/agr_bionic_mmap.cpp:115-123 | Fills exactly the new range with zeros or with the file's bytes from the page offset on, byte by byte |
| GuestMmap.Context.Publish | Runtime/Bionic/agr_bionic_mmap.cpp:46-53 | Publishes the protection for exactly the pages of the range |
| GuestMmap.Context.Mmap2 | Runtime/Bionic/agr_bionic_mmap.cpp:83-135 | EINVAL and EBADF exactly for bad requests, each condition written out, ENOMEM exactly without room, EFAULT exactly if a write failed; the first three change nothing; success maps the named or the lowest free range with the right contents; the table mirrors the regions throughout |
| GuestMmap.Context.Mprotect | Runtime/Bionic/agr_bionic_mmap.cpp:137-148 | Succeeds exactly on wholly mapped acceptable ranges and keeps table and regions in step; EINVAL for a bad request, ENOMEM for an unmapped part; failure changes neither |
| GuestMmap.Context.Munmap | Runtime/Bionic/agr_bionic_mmap.cpp:150-160 | Clears exactly the range in regions and table; EINVAL exactly for an unacceptable range; failure changes neither |
| GuestMmap.Context.CheckAccess | Runtime/ArmInterpreter/src/mem.rs:275-282 | On touched pages the interpreter's check decides exactly by the regions' protections |
| Heap.Allocator.RangeIsFree | Runtime/Bionic/agr_bionic_allocator.cpp:169-176 | True exactly if no region meets the range and it ends inside the 4 GiB space |
| Heap.Allocator.MoreCore | Runtime/Bionic/agr_bionic_allocator.cpp:211-235 | Exactly when the break moves; it returns the old break; growth takes only free pages, shrinking clears exactly the pages given up, failure changes nothing; the mapped break stays the rounded break and all below it mapped |
| Heap.Allocator.Grow | Runtime/Bionic/agr_bionic_allocator.cpp:219-227 | Growth despite MAP_FIXED replaces nobody's page, and succeeds exactly if the pages are free and in bounds and no write fails |
| Heap.Allocator.Shrink | Runtime/Bionic/agr_bionic_allocator.cpp:228-232 | Giving pages back cannot fail and clears exactly them |
| Heap.Allocator.TryPlace | Runtime/Bionic/agr_bionic_allocator.cpp:195-202 | One round maps the place exactly if it is free, unless a write fails, and never touches mapped pages |
| Heap.Allocator.SearchPlaces | Runtime/Bionic/agr_bionic_allocator.cpp:192-205 | With the heap window inside the address space and no failed write, the loop returns exactly what the downward search specification returns |
| Heap.Allocator.DlMmap | Runtime/Bionic/agr_bionic_allocator.cpp:188-206 | A heap map takes only free pages between the mapped break and the limit, and changes nothing on failure; its result is the search specification's |
| Heap.Allocator.DlMunmap | Runtime/Bionic/agr_bionic_allocator.cpp:207-210 | Clears exactly the range it is given, or changes nothing; the break's pages stay mapped exactly if the range misses them |
| HeapRuns.TakeKeeps | Runtime/Bionic/agr_bionic_allocator.cpp:188-206 | A mapping of free pages meets no outstanding block, and leaves all of them readable and writable |
| HeapRuns.GrowKeeps | Runtime/Bionic/agr_bionic_allocator.cpp:219-227 | Growing the break over free pages leaves every outstanding block above the new break |
| HeapRuns.GiveBackKeeps | Runtime/Bionic/agr_bionic_allocator.cpp:207-210 | Clearing one block leaves all others as they are |
| HeapRuns.MoveBreak | Runtime/Bionic/agr_bionic_allocator.cpp:211-236 | agr_dl_morecore, up or down or failing, leaves every outstanding block alone and above the break |
| HeapRuns.Take | Runtime/Bionic/agr_bionic_allocator.cpp:188-206 | What agr_dl_mmap hands out is a new block, apart from all outstanding ones |
| HeapRuns.GiveBack | Runtime/Bionic/agr_bionic_allocator.cpp:207-210 | agr_dl_munmap of an outstanding block always succeeds and leaves the others outstanding |
| Heap.SearchFindsIff | Runtime/Bionic/agr_bionic_allocator.cpp:193-203 | The search finds a place exactly if it is the first free one among limit - size - k (size + 4096) above the break |
| Heap.RungAt | Runtime/Bionic/agr_bionic_allocator.cpp:194-202 | Closed form of the k-th place tried |
| Heap.SearchMissesFreeRange | Runtime/Bionic/agr_bionic_allocator.cpp:193-203 | The search is not complete: with only the top page of a four-page window taken, a two-page request finds nothing |
| ElfLoader.LoadSize | Runtime/AospLinker/agr_aosp_linker.cpp:80-115 | Returns the least whole-page span of all loadable segments of a validated table, also when it ends at 2^32, and 0 without any |
| ElfLoader.ValidateHeaders | Runtime/AospLinker/agr_aosp_linker.cpp:126-130 | Accepts exactly tables whose loadable segments are well formed for the file size, each condition written out |
| ElfLoader.ReserveAddressSpace | Runtime/AospLinker/agr_aosp_linker.cpp:136-163 | ENOEXEC exactly if there is nothing to load, ENOMEM exactly without a free range for the span, EFAULT exactly if a write fails; otherwise takes the lowest such range at or above the address asked for; failure leaves every mapping as it was |
| ElfLoader.ExpectedIsImage | Runtime/AospLinker/agr_aosp_linker.cpp:181-217 | What a loaded segment should hold is its file byte below filesz and zero up to memsz |
| ElfLoader.ShownAsFlagged | Runtime/AospLinker/agr_aosp_linker.cpp:45 | The protection computed from a header's flags grants reading, writing and executing exactly if PF_R, PF_W and PF_X are set |
| ElfLoader.MapFilePart | Runtime/AospLinker/agr_aosp_linker.cpp:181-196 | The file-backed pages hold the file window and get the segment's protection; nothing outside the segment's pages changes |
| ElfLoader.ZeroTail | Runtime/AospLinker/agr_aosp_linker.cpp:198-205 | Zeroing the last file page of a writable segment stays inside it and keeps the expected contents |
| ElfLoader.MapBss | Runtime/AospLinker/agr_aosp_linker.cpp:207-217 | The anonymous pages complete the segment's contents and protection |
| ElfLoader.LoadSegment | Runtime/AospLinker/agr_aosp_linker.cpp:174-217 | One segment ends up with the expected contents on all its pages, and with read, write and execute granted there exactly as its header's PF_R, PF_W and PF_X say; touches no other page |
| ElfLoader.OthersKept | Runtime/AospLinker/agr_aosp_linker.cpp:166-220 | For page-disjoint segments, loading one leaves all others loaded or still zero |
| ElfLoader.LoadSegments | Runtime/AospLinker/agr_aosp_linker.cpp:166-220 | All segments are in place, everything outside the reservation is as before, and it fails only if a write fails |
| ElfLoader.LoadReserved | Runtime/AospLinker/agr_aosp_linker.cpp:275 | A failed load gives the reservation back and restores the region list exactly |
| ElfLoader.MapImage | Runtime/AospLinker/agr_aosp_linker.cpp:271-275 | The exact code of every outcome (ENOEXEC, ENOMEM, EFAULT or 0); on success only a previously free range changed, every segment is in place at the lowest fit and grants exactly what its header flags say; otherwise region list and mapped bytes are as before |
| ElfLoader.UnloadImage | Runtime/AospLinker/agr_aosp_linker.cpp:277 | Clears exactly the image's range, or fails and changes nothing |
| ElfLoader.UnloadUndoesMap | Runtime/AospLinker/agr_aosp_linker.cpp:271-277 | Unloading a mapped image always succeeds and restores exactly the region list from before mapping |
| ElfLoader.ProtectSegment | Runtime/AospLinker/agr_aosp_linker.cpp:230-238 | Setting a loaded segment's protection again changes no region, and fails with EINVAL exactly for a segment without pages |
| ElfLoader.ProtectSegments | Runtime/AospLinker/agr_aosp_linker.cpp:222-246 | Protecting a loaded image changes no region and leaves every segment with exactly the access its header flags say; EINVAL exactly if some read-only segment is empty and page-aligned |
| LinkGraph.PushKeeps | Runtime/AospLinker/agr_aosp_dynamic.cpp:232-233 | Listing a new library keeps counts, order and acyclicity |
| LinkGraph.PushHostKeeps | Runtime/AospLinker/agr_aosp_dynamic.cpp:231 | So does adding a host library as a leaf |
| LinkGraph.AddRefKeeps | Runtime/AospLinker/agr_aosp_dynamic.cpp:237 | A reference more is one claim more |
| LinkGraph.NeedKeeps | Runtime/AospLinker/agr_aosp_dynamic.cpp:222 | Recording a needed library turns a claim into an edge and keeps count = edges + claims |
| LinkGraph.LinkKeeps | Runtime/AospLinker/agr_aosp_dynamic.cpp:225 | Marking a library as linked ranks it above all it needs |
| LinkGraph.DropKeeps | Runtime/AospLinker/agr_aosp_dynamic.cpp:247 | Giving back a claim that is not the last keeps the invariant |
| LinkGraph.RemoveKeeps | Runtime/AospLinker/agr_aosp_dynamic.cpp:247 | Removing a library nobody else refers to turns its needed edges into claims to release; no edge pointed to it |
| LinkGraph.NoCycle | Runtime/AospLinker/agr_aosp_dynamic.cpp:205-237 | No path of needed pointers leads from a linked library back to itself |
| LinkGraph.CountsDetermined | Runtime/AospLinker/agr_aosp_dynamic.cpp:247 | The reference counts are determined by the needed lists and the claims alone |
| LinkGraph.PopBackIff | Runtime/AospLinker/agr_aosp_dynamic.cpp:234 | Popping the last list entry removes a library exactly if that library is the last |
| InitOrder.OrderlyInit | Runtime/AospLinker/agr_aosp_dynamic.cpp:202 | Running a library's init functions after those of all it needs keeps the recorded order |
| InitOrder.OrderlyRemove | Runtime/AospLinker/agr_aosp_dynamic.cpp:247 | Finalizing and removing a library before everything it needs, directly or through others, keeps the recorded order |
| InitOrder.InitAfterAllNeeds | Runtime/AospLinker/agr_aosp_dynamic.cpp:202 | In an orderly history a library's constructors run after those of all its direct and indirect dependencies |
| InitOrder.FiniBeforeAllNeeds | Runtime/AospLinker/agr_aosp_dynamic.cpp:247 | If two libraries have been finalized and one reaches the other by a chain of needs, it was finalized first |
| InitOrder.DeepFini | Runtime/AospLinker/agr_aosp_dynamic.cpp:247 | Finalizing a loaded library keeps that order, because everything it reaches is still loaded, also where a link of the chain is never finalized |
| InitOrder.RunsOnce | Runtime/AospLinker/agr_aosp_dynamic.cpp:202-203 | No library is constructed twice and none finalized twice |
| InitFunctions.FiniFnsRan | Runtime/AospLinker/agr_aosp_dynamic.cpp:203 | What one finalization calls: each fini_array entry other than 0 and -1 once per occurrence, later entries first, and a fini function that is not skipped last |
| InitFunctions.InitFnsRan | Runtime/AospLinker/agr_aosp_dynamic.cpp:202 | What one construction calls: an init function that is not skipped first, then each init_array entry other than 0 and -1 once per occurrence, in order |
| InitFunctions.LogInOrder | Runtime/AospLinker/agr_aosp_dynamic.cpp:194-203 | In every state of the linker in which no such function has failed, each entry of the log has called exactly those functions in that order |
| InitFunctions.LaterEntryFirst | Runtime/AospLinker/agr_aosp_dynamic.cpp:199-203 | Of two fini_array entries that are not skipped, the later one has run before the earlier one |
| LinkSteps.NotTheLast | Runtime/AospLinker/agr_aosp_dynamic.cpp:234 | When a failed load releases what it had found, no release is the last one, so none unloads anything |
| LinkSteps.AbandonCases | Runtime/AospLinker/agr_aosp_dynamic.cpp:234 | The two cases of the error path: the failed library is last and popping equals removing it, or it stays in the list |
| LinkSteps.ConstructedHasInit | Runtime/AospLinker/agr_aosp_dynamic.cpp:202 | Without a failed constructor a library counts as constructed exactly if its constructors have run |
| LinkClosure.ResolvesUnfold | Runtime/AospLinker/agr_aosp_dynamic.cpp:236 | A library not yet linked resolves exactly if it is not half-linked and all its needs resolve, or the host provides it |
| LinkClosure.SameResolves | Runtime/AospLinker/agr_aosp_dynamic.cpp:222 | Loading whole closures changes neither way which other names resolve |
| LinkClosure.ListingResolves | Runtime/AospLinker/agr_aosp_dynamic.cpp:232-236 | A new library resolves exactly if its needs resolve while it is itself refused as half-linked |
| LinkClosure.ResolvesIffUnblocked | Runtime/AospLinker/agr_aosp_dynamic.cpp:222-236 | A name resolves exactly if no chain of needs leads to a missing or half-linked library or round in a circle |
| LinkClosure.HostNames | Runtime/AospLinker/agr_aosp_dynamic.cpp:119-122 | With no file registered and nothing loaded, exactly the ten host libraries can be opened |
| LinkDangling.LastIffNothingElse | Runtime/AospLinker/agr_aosp_dynamic.cpp:234 | The failed library is the last list entry exactly if nothing was listed after it |
| LinkDangling.NextFound | Runtime/AospLinker/agr_aosp_dynamic.cpp:222 | While the needs are found one by one, the list has grown exactly if some need so far was not linked before |
| LinkDangling.StrandedAt | Runtime/AospLinker/agr_aosp_dynamic.cpp:222-234 | When a need is not found, the load strands a library exactly if one was listed before it or its own load did |
| LinkDangling.LoadableThenMissing | Runtime/AospLinker/agr_aosp_dynamic.cpp:222-234 | A new library that needs first a loadable and then a missing one meets the condition |
| LinkDangling.MissingFirst | Runtime/AospLinker/agr_aosp_dynamic.cpp:222-234 | In the other order it does not, and fails cleanly |
| LinkRestore.StaysHeld | Runtime/AospLinker/agr_aosp_dynamic.cpp:247 | Of two sound states with the same claims, a file library of one is in the other if shared libraries have the same needs |
| LinkRestore.CloseRestores | Runtime/AospLinker/agr_aosp_dynamic.cpp:237-261 | A successful close after a successful open: the same claims, the same files with the same counts, and at most unreferenced host libraries more, whatever had to be loaded and unloaded |
| LinkRestore.CloseNeedsClaim | Runtime/AospLinker/agr_aosp_dynamic.cpp:247 | A close by a caller without a claim leaves either a count too low for the edges, or a library needing one that is gone |
| DynamicLinker.Linker.Register | Runtime/AospLinker/agr_aosp_dynamic.cpp:253 | Registering adds or replaces one file and leaves the graph alone |
| DynamicLinker.Linker.FindLoaded | Runtime/AospLinker/agr_aosp_dynamic.cpp:118 | Finds a listed library by name, or reports that the name is free |
| DynamicLinker.Linker.FindLibrary | Runtime/AospLinker/agr_aosp_dynamic.cpp:236-237 | Finds or loads and counts one reference; succeeds exactly if the name resolves and no file operation fails; a clean failure restores the graph; without a failed file operation a freed library stays listed exactly if the name dangles |
| DynamicLinker.Linker.LoadLibrary | Runtime/AospLinker/agr_aosp_dynamic.cpp:230-235 | The same for a name that is not loaded, with the same exact condition for a dangling list |
| DynamicLinker.Linker.LinkNew | Runtime/AospLinker/agr_aosp_dynamic.cpp:233-234 | The new library ends linked with all needs, or is abandoned |
| DynamicLinker.Linker.LinkImage | Runtime/AospLinker/agr_aosp_dynamic.cpp:206-227 | Linking succeeds exactly if all needed names resolve and no file operation fails; others change at most in their counts; without a failed file operation it strands a library exactly if the needs do |
| DynamicLinker.Linker.FindNeeds | Runtime/AospLinker/agr_aosp_dynamic.cpp:222 | The DT_NEEDED loop finds all names exactly if all resolve; and exactly when it fails with a library stranded |
| DynamicLinker.Linker.AddNeed | Runtime/AospLinker/agr_aosp_dynamic.cpp:222 | The found library becomes an edge |
| DynamicLinker.Linker.Abandon | Runtime/AospLinker/agr_aosp_dynamic.cpp:234 | Undoes the load exactly if the failed library is the last in the list; otherwise a freed object stays listed |
| DynamicLinker.Linker.GiveBack | Runtime/AospLinker/agr_aosp_dynamic.cpp:234 | Releasing what had been found restores objects, list, main library and references exactly |
| DynamicLinker.Linker.CallFunction | Runtime/AospLinker/agr_aosp_dynamic.cpp:198 | Addresses 0 and 0xffffffff are skipped and succeed; others are called once |
| DynamicLinker.Linker.CallArray | Runtime/AospLinker/agr_aosp_dynamic.cpp:199 | An array is called in order, or backwards for finalizers, without the skipped entries |
| DynamicLinker.Linker.CallDestructors | Runtime/AospLinker/agr_aosp_dynamic.cpp:203 | fini_array reversed, then fini, as `InitFunctions.FiniFnsRan` spells out |
| DynamicLinker.Linker.RunInit | Runtime/AospLinker/agr_aosp_dynamic.cpp:202 | init, then init_array, as `InitFunctions.InitFnsRan` spells out |
| DynamicLinker.Linker.CallConstructors | Runtime/AospLinker/agr_aosp_dynamic.cpp:202 | Constructs everything needed first and the library last, once, and changes nothing but the constructed flags |
| DynamicLinker.Linker.ConstructNeeds | Runtime/AospLinker/agr_aosp_dynamic.cpp:202 | On success all needed libraries are constructed |
| DynamicLinker.Linker.EraseFromList | Runtime/AospLinker/agr_aosp_dynamic.cpp:247 | The search-and-erase loop removes exactly this library from the list |
| DynamicLinker.Linker.Free | Runtime/AospLinker/agr_aosp_dynamic.cpp:247 | The last release runs the finalizers, then removes the library; a failed finalizer leaves everything in place |
| DynamicLinker.Linker.Unload | Runtime/AospLinker/agr_aosp_dynamic.cpp:247 | A release that is not the last only counts down; the last one finalizes before anything it releases; exactly this claim is gone on success; it ends, by rank |
| DynamicLinker.Linker.ReleaseAll | Runtime/AospLinker/agr_aosp_dynamic.cpp:247 | Releasing the dependencies of a removed library uses exactly their claims |
| DynamicLinker.Linker.Dlopen | Runtime/AospLinker/agr_aosp_dynamic.cpp:257 | Refuses exactly the bad flags; loads exactly if the name resolves and no file operation fails; the handle is the load bias, or 0 if a constructor failed, in which case the reference stays; a clean failure restores everything; without a failed file operation a freed library stays listed exactly if the name dangles |
| DynamicLinker.GoodFlags | Runtime/AospLinker/agr_aosp_dynamic.cpp:257 | The eight flag words that dlopen accepts |
| DynamicLinker.Linker.FindHandle | Runtime/AospLinker/agr_aosp_dynamic.cpp:261 | The first listed library with this bias, and none exactly if no listed one has it |
| DynamicLinker.Linker.Dlclose | Runtime/AospLinker/agr_aosp_dynamic.cpp:261 | The self handle and unknown handles change nothing; otherwise exactly one claim on the library is released |
| DynamicLinker.OpenAndClose | Runtime/AospLinker/agr_aosp_dynamic.cpp:257-261 | Opening a name and closing the handle, if the handle leads back to that library and no finalizer fails, gives back the state before |
| DynamicLinker.OpenWithMissing | Runtime/AospLinker/agr_aosp_dynamic.cpp:222-234 | From a new linker: opening a library that needs a loadable and a missing one ends with a freed library in the list exactly if the loadable one comes first |
| ThreadLifecycle.CreateKeeps | Runtime/Bionic/agr_bionic_thread_lifecycle.cpp:143-187 | Creating a thread, with a failing create or detach as well, keeps the invariant |
| ThreadLifecycle.RegisterKeeps | Runtime/Bionic/agr_bionic_thread_lifecycle.cpp:263-282 | Registering the current thread keeps it |
| ThreadLifecycle.BindKeeps | Runtime/Bionic/agr_bionic_thread_lifecycle.cpp:247-261 | Binding a guest context keeps it |
| ThreadLifecycle.ExitKeeps | Runtime/Bionic/agr_bionic_thread_lifecycle.cpp:54-74 | A thread's exit stores its value, wakes joiners and drops a detached record, and keeps the invariant |
| ThreadLifecycle.JoinBeginKeeps | Runtime/Bionic/agr_bionic_thread_lifecycle.cpp:189-205 | Entering join keeps it, whichever refusal of `ThreadAnswers.JoinBegins` applies |
| ThreadLifecycle.SettleKeeps | Runtime/Bionic/agr_bionic_thread_lifecycle.cpp:204-213 | A woken joiner goes back to sleep, gives up at shutdown, or takes the host handle |
| ThreadLifecycle.HostJoinKeeps | Runtime/Bionic/agr_bionic_thread_lifecycle.cpp:213-216 | The host's join outside the lock, successful or not, keeps it under every interleaving |
| ThreadLifecycle.JoinEndKeeps | Runtime/Bionic/agr_bionic_thread_lifecycle.cpp:217-226 | A failed host join gives the record back, a successful one erases it |
| ThreadLifecycle.DetachKeeps | Runtime/Bionic/agr_bionic_thread_lifecycle.cpp:229-245 | Detach, also of a joined or finished thread, keeps it |
| ThreadLifecycle.ShutdownBeginKeeps | Runtime/Bionic/agr_bionic_thread_lifecycle.cpp:111-116 | Closing keeps it |
| ThreadLifecycle.LookKeeps | Runtime/Bionic/agr_bionic_thread_lifecycle.cpp:117-134 | One look of the shutdown loop keeps it: wait for a joiner, wait for an exit, or take the handle |
| ThreadLifecycle.LastJoinKeeps | Runtime/Bionic/agr_bionic_thread_lifecycle.cpp:135-137 | Shutdown's own host join keeps it, also when it fails |
| ThreadLifecycle.EraseKeeps | Runtime/Bionic/agr_bionic_thread_lifecycle.cpp:138-139 | Erasing the record afterwards keeps it |
| ThreadLifecycle.RunKeepsInv | Runtime/Bionic/agr_bionic_thread_lifecycle.cpp:54-282 | Every state of every interleaving satisfies the invariant |
| ThreadLifecycle.UsedAtMostOnce | Runtime/Bionic/agr_bionic_thread_lifecycle.cpp:54-245 | No host thread gets two successful joins or detaches |
| ThreadLifecycle.HandsOverUnused | Runtime/Bionic/agr_bionic_thread_lifecycle.cpp:133-239 | Whatever handle join, detach or shutdown passes to the host names a host thread that has not been used up |
| ThreadLifecycle.JoinYieldsTheValue | Runtime/Bionic/agr_bionic_thread_lifecycle.cpp:204-226 | A successful join returns the value of a finished thread, and two successful joins are of different threads |
| ThreadLifecycle.RunningThreadHasRecord | Runtime/Bionic/agr_bionic_thread_lifecycle.cpp:54-74 | While thread_entry runs, its record exists and is its own, so the item it dereferences is live |
| ThreadLifecycle.AfterShutdown | Runtime/Bionic/agr_bionic_thread_lifecycle.cpp:111-141 | When shutdown returns only entry-thread records are left, no host thread runs, and each was used exactly once except those whose last join failed |
| ThreadLifecycle.NoJoinerSleepsInVain | Runtime/Bionic/agr_bionic_thread_lifecycle.cpp:70-209 | A sleeping joiner's thread is still running and nothing is closing |
| ThreadAnswers.JoinBegins | Runtime/Bionic/agr_bionic_thread_lifecycle.cpp:189-205 | On every run which refusal a join gets at once, exactly and in the order of the code: EINVAL, ESRCH, ECANCELED, EDEADLK, EINVAL; a refused join changes nothing, any other waits for its thread or takes its handle |
| ThreadAnswers.NobodyJoinsItself | Runtime/Bionic/agr_bionic_thread_lifecycle.cpp:197-200 | On every run a thread that joins itself never waits and never takes a handle: it has EDEADLK, or ECANCELED once closing, for good |
| ThreadAnswers.ReturnedStays | Runtime/Bionic/agr_bionic_thread_lifecycle.cpp:189-227 | What a join has returned it has returned for good |
| ThreadAnswers.JoinEnds | Runtime/Bionic/agr_bionic_thread_lifecycle.cpp:206-227 | On every run a join that was not refused ends with ECANCELED, only once shutdown has begun, or with what the host answered for it |
| ThreadAnswers.DetachAnswers | Runtime/Bionic/agr_bionic_thread_lifecycle.cpp:229-245 | On every run the answer of detach, exactly and in the order of the code, and what it changes: nothing when refused, nothing for a record that somebody joins |
| ThreadAnswers.CreateAnswers | Runtime/Bionic/agr_bionic_thread_lifecycle.cpp:143-187 | On every run the answer of create, exactly and in the order of the code; a started thread has the next handle, and is detached exactly if asked for and the host could |
| ThreadAnswers.HandlesDiffer | Runtime/Bionic/agr_bionic_thread_lifecycle.cpp:143-187 | No two calls of create get the same handle, whatever happens between them |
| ThreadAnswers.RegisterAnswers | Runtime/Bionic/agr_bionic_thread_lifecycle.cpp:263-282 | The answer of register_current, exactly, and the record it makes |
| ThreadAnswers.BindAnswers | Runtime/Bionic/agr_bionic_thread_lifecycle.cpp:247-261 | The answer of bind_current, exactly, and that only the context changes |
| ThreadShutdown.SleepJustifiedIff | Runtime/Bionic/agr_bionic_thread_lifecycle.cpp:117-134 | A shutdown that sleeps on a record has a running thread or an unfinished join to wait for exactly if a host thread was started for the record |
| ThreadShutdown.StrayBlocksShutdown | Runtime/Bionic/agr_bionic_thread_lifecycle.cpp:111-141 | A record registered for a guest id other than 1 is never removed, and no shutdown returns after it |
| ThreadShutdown.ShutdownSleepsForever | Runtime/Bionic/agr_bionic_thread_lifecycle.cpp:111-282 | A run of three steps that ends with shutdown asleep, nothing running and nobody joining |
| ThreadShutdown.ReturnsIffNoStray | Runtime/Bionic/agr_bionic_thread_lifecycle.cpp:111-141 | In every state of every run after closing, some continuation lets shutdown return exactly if no such record is left |
| ThreadShutdown.CanReturn | Runtime/Bionic/agr_bionic_thread_lifecycle.cpp:111-141 | That continuation: the threads end, the joins return, and shutdown joins what is left |
| ThreadShutdown.EntryOnlyHasNoStray | Runtime/Bionic/agr_bionic_thread_lifecycle.cpp:263-282 | If only guest id 1 is ever registered, there is none in any state |
| Tls.Storage.constructor | Runtime/Bionic/agr_bionic_tls.cpp:55-69 | At the start exactly keys 7 to 10 are allocated |
| Tls.Storage.RegisterThread | Runtime/Bionic/agr_bionic_tls.cpp:72-85 | Which registrations are refused; a registered block is zero but for its own address and descriptor; nothing outside the block changes |
| Tls.Storage.KeyCreate | Runtime/Bionic/agr_bionic_tls.cpp:87-97 | Takes the lowest free key, and it reads NULL in every registered thread |
| Tls.Storage.KeyDelete | Runtime/Bionic/agr_bionic_tls.cpp:99-110 | Frees the key only after its slot is zero in every thread; touches only that key's slots, and none of the low slots of any thread; fails otherwise and leaves the key allocated |
| Tls.Storage.ClearEverywhere | Runtime/Bionic/agr_bionic_tls.cpp:105-107 | The loop over the threads zeroes the slot in all of them, in any order |
| Tls.Storage.SetSpecific | Runtime/Bionic/agr_bionic_tls.cpp:112-120 | Exactly when it is refused, and that it changes exactly one word, never a low slot |
| Tls.Storage.GetSpecific | Runtime/Bionic/agr_bionic_tls.cpp:122-132 | Reads the thread's slot; an unallocated key reads NULL however it was used before |
| Tls.Storage.UnregisterThread | Runtime/Bionic/agr_bionic_tls.cpp:194-199 | Removes exactly this thread |
| Tls.Storage.Visit | Runtime/Bionic/agr_bionic_tls.cpp:175-187 | One key of a pass, whatever other threads call meanwhile: the destructor is called exactly if the key has one and its value is not zero, and the value is cleared before it gets it |
| Tls.Storage.Pass | Runtime/Bionic/agr_bionic_tls.cpp:173-190 | One pass calls each key at most once, whatever destructors and other threads do while the lock is released; each call was asked for when it was made; a key that nobody else touches gets its call if it asks for one when the pass begins |
| Tls.Storage.CleanupThread | Runtime/Bionic/agr_bionic_tls.cpp:164-192 | On every run, whatever destructors and other threads do meanwhile: the calls are those of at most four passes, a pass that calls something is followed by another unless it is the fourth, after one that calls nothing no destructor is asked for, and a value that is there at any moment before the last pass and that nobody else touches gets its destructor called. If nobody touches this thread's values, registration and keys: exactly one call per key with a value and a destructor, in key order |
| Tls.LowSlotsKept | Runtime/Bionic/agr_bionic_tls.cpp:99-110 | Changing one key's slots leaves the slots below 7 of every thread alone |
| Tls.PassResult | Runtime/Bionic/agr_bionic_tls.cpp:173-190 | A quiet pass makes exactly the wanted calls and leaves none wanted |
| Tls.FollowedCall | Runtime/Bionic/agr_bionic_tls.cpp:176-187 | After each call of a pass: a watched key is answered, or still asks and is yet to come, or was set after the pass went by it |
| Tls.TrailMore | Runtime/Bionic/agr_bionic_tls.cpp:173-190 | After each pass: a watched key is answered unless it was set during that very pass |
| EhabiSpec.DecodeShorter | Runtime/Ehabi/agr_ehabi.c:173-287 | Every opcode consumes at least one byte, so executing a descriptor ends by the bytes left |
| EhabiSpec.UlebEndsIff | Runtime/Ehabi/agr_ehabi.c:236-247 | The operand of 0xb2 ends inside the descriptor exactly if some byte left has bit 7 clear |
| EhabiDiverge.LoopNeverEndsIff | Runtime/Ehabi/agr_ehabi.c:118-132 | Every byte the loop ever reads, filler included, tells it to go on exactly if the number does not end inside the descriptor |
| EhabiDiverge.PaddingNeverEndsIff | Runtime/Ehabi/agr_ehabi.c:236-247 | However much filler is appended the number does not end, exactly if all bytes of the descriptor have bit 7 set |
| EhabiDiverge.DivergesIff | Runtime/Ehabi/agr_ehabi.c:173-287 | Executing a readable descriptor never ends exactly if after some instructions comes 0xb2 with no byte left that has bit 7 clear |
| EhabiDiverge.EndlessWord | Runtime/Ehabi/agr_ehabi.c:236-247 | The one-word descriptor 0x80b28080 does that, from every register state |
| EhabiPrologue.DecodeEncode | Runtime/Ehabi/agr_ehabi.c:173-287 | The bytes written for a prologue step decode to the operation that undoes it and leave the rest of the stream |
| EhabiPrologue.UlebInverse | Runtime/Ehabi/agr_ehabi.c:236-247 | Decoding inverts the ULEB128 encoding, at any shift |
| EhabiPrologue.PrologueSaves | Runtime/Ehabi/agr_ehabi.c:134-171 | After a prologue every saved word is still at its place in the stack |
| EhabiUnwind.UndoesStep | Runtime/Ehabi/agr_ehabi.c:134-171 | Popping what one step pushed restores its registers and the stack pointer and touches no other register |
| EhabiUnwind.Unwinds | Runtime/Ehabi/agr_ehabi.c:173-287 | Executing a whole descriptor undoes its steps in reverse order |
| EhabiUnwind.PrologueUndone | Runtime/Ehabi/agr_ehabi.c:173-287 | For every prologue: unwinding restores all saved core and VFP registers and sp, leaves the others, and sets pc from the saved pc or from lr, with the Thumb bit from pc |
| EhabiFrame.MovesUndone | Runtime/Ehabi/agr_ehabi.c:187-192 | Undoing stack pointer moves one by one changes nothing else |
| EhabiFrame.FrameUndone | Runtime/Ehabi/agr_ehabi.c:207-216 | The same for functions with a frame pointer, at any offset: unwinding from the saved register restores everything, wherever the stack pointer is |
| EhabiStack.StackOkIff | Runtime/Ehabi/agr_ehabi.c:55-61 | stack_ok accepts exactly the words that lie wholly between the bounds of the stack, and none of a stack that ends at or beyond 2^32; with unknown bounds it accepts all |
| EhabiStack.OnlyStackMatters | Runtime/Ehabi/agr_ehabi.c:134-171 | Executing a descriptor gives the same result when all words outside the stack are taken away |
| EhabiStack.PopOutsideFails | Runtime/Ehabi/agr_ehabi.c:134-171 | A pop of any word outside the stack, or unreadable, ends in failure |
| EhabiStack.PopCoreLoads | Runtime/Ehabi/agr_ehabi.c:134-145 | Which word each register of a mask gets, the stack pointer included, and where the stack pointer ends |
| EhabiLayout.ShortForm | Runtime/Ehabi/agr_ehabi.c:391-402 | A header of personality 0 gives its three low bytes and no further words |
| EhabiLayout.LongForm | Runtime/Ehabi/agr_ehabi.c:391-402 | Headers of personality 1 and 2 give a count of further words and two opcode bytes |
| EhabiLayout.FurtherWords | Runtime/Ehabi/agr_ehabi.c:118-132 | The further words give all their bytes in order, top byte first |
| EhabiLayout.UnsupportedIff | Runtime/Ehabi/agr_ehabi.c:173-287 | Exactly which first bytes stop as unsupported |
| EhabiLayout.RefusesIff | Runtime/Ehabi/agr_ehabi.c:193-199 | A readable descriptor stops as a failure by its opcode exactly at 80 00 |
| EhabiLayout.TooManyDoubles | Runtime/Ehabi/agr_ehabi.c:160-164 | A VFP pop beyond d31 is a failure |
| EhabiLayout.EveryOpUndoes | Runtime/Ehabi/agr_ehabi.c:173-287 | The prologue steps are complete: every operation a descriptor can name, other than frame registers, pops of sp and refusals, undoes one of them |
| Ehabi.Unwinder.constructor | Runtime/Ehabi/agr_ehabi.c:391-402 | The initial state yields exactly the descriptor's bytes: three or two of the header, then those of the following words |
| Ehabi.Unwinder.NextByte | Runtime/Ehabi/agr_ehabi.c:118-132 | Yields the flattened descriptor byte by byte, then 0xb0, and reports an unreadable word |
| Ehabi.Unwinder.PopCore | Runtime/Ehabi/agr_ehabi.c:134-145 | Loads the registers of a mask and moves sp, or fails outside the stack, as `EhabiStack.PopCoreLoads` and `EhabiStack.PopOutsideFails` spell out |
| Ehabi.Unwinder.PopWords | Runtime/Ehabi/agr_ehabi.c:147-158 | Loads consecutive words and moves sp; failure leaves the registers |
| Ehabi.Unwinder.PopVfp | Runtime/Ehabi/agr_ehabi.c:160-171 | Loads VFP registers from word pairs, refusing ranges beyond d31 |
| Ehabi.Unwinder.FillVfp | Runtime/Ehabi/agr_ehabi.c:166-169 | The loop pairs the words into the right registers |
| Ehabi.Unwinder.StepMask | Runtime/Ehabi/agr_ehabi.c:193-207 | Two-byte core pops, with the refuse-to-unwind code |
| Ehabi.Unwinder.StepB | Runtime/Ehabi/agr_ehabi.c:226-263 | The 0xb1 to 0xbf opcodes |
| Ehabi.Unwinder.TakeUleb | Runtime/Ehabi/agr_ehabi.c:236-246 | The ULEB128 loop adds up exactly the decoded number modulo 2^32, fails on an unreadable word, or, where the C loop reads filler for ever, reports that |
| Ehabi.Unwinder.StepUleb | Runtime/Ehabi/agr_ehabi.c:236-248 | The far stack adjustment adds 0x204 on top |
| Ehabi.Unwinder.StepDouble | Runtime/Ehabi/agr_ehabi.c:269-276 | The VFP pops whose range is in a second byte |
| Ehabi.Unwinder.StepLow | Runtime/Ehabi/agr_ehabi.c:187-225 | The one-byte opcodes below 0xb0 |
| Ehabi.Unwinder.Step | Runtime/Ehabi/agr_ehabi.c:176-285 | One round of the loop does what decoding one operation and applying it does |
| Ehabi.Unwinder.ExecuteOpcodes | Runtime/Ehabi/agr_ehabi.c:173-287 | The loop computes the specification's run: same final registers, same stop code |
| Ehabi.Unwinder.Finish | Runtime/Ehabi/agr_ehabi.c:182-186 | pc from lr unless it was popped, Thumb state from pc |
| Ehabi.RangeBitsMask | Runtime/Ehabi/agr_ehabi.c:218-219 | The shifted constant of the 0xa0 opcodes is the mask of r4 to r[4 + n], with lr if asked |
| Ehabi.HeaderBytes | Runtime/Ehabi/agr_ehabi.c:394-402 | Shifting the header yields its low three or two bytes in order |
| ExidxSearch.Prel31IsSigned | Runtime/Ehabi/agr_ehabi.c:63-70 | The 31-bit offset is taken as a signed number relative to its own address |
| ExidxSearch.SearchExidx | Runtime/Ehabi/agr_ehabi.c:85-109 | What the binary search finds covers the address, sorted or not; in a sorted table it finds an entry exactly if the address is not below the first function |
| ExidxSearch.CoversOnce | Runtime/Ehabi/agr_ehabi.c:85-109 | In a sorted table only one entry covers an address |
| ProbeTable.EmptyAhead | Runtime/GuestRuntime/agr_jni_methods.c:32-54 | Probing from any slot meets an empty bucket, so every probing loop ends |
| ProbeTable.MaskIsMod | Runtime/GuestRuntime/agr_jni_methods.c:31-44 | For a power of two, masking with one less is the remainder |
| ProbeTable.AfterByMask | Runtime/GuestRuntime/agr_jni_methods.c:32-54 | The masked increment is the next bucket, with wrap-around |
| ProbeTable.ProbeDecides | Runtime/GuestRuntime/agr_jni_methods.c:44-49 | An empty bucket reached without a match proves that no entry has the key |
| ProbeTable.PlaceOne | Runtime/GuestRuntime/agr_jni_methods.c:65-68 | Putting a new entry into the empty bucket keeps every entry reachable by probing |
| JniMethods.Table.Probe | Runtime/GuestRuntime/agr_jni_methods.c:42-49 | Probing finds exactly what a scan of the entries finds |
| JniMethods.Table.FindEmpty | Runtime/GuestRuntime/agr_jni_methods.c:31-32 | Finds the first empty bucket on the key's path |
| JniMethods.Table.Rehash | Runtime/GuestRuntime/agr_jni_methods.c:25-37 | Rebuilds the buckets for the same entries; on failure nothing changes |
| JniMethods.Table.MakeRoom | Runtime/GuestRuntime/agr_jni_methods.c:51-55 | Keeps the load under three quarters and finds a bucket for the new key |
| JniMethods.Table.Append | Runtime/GuestRuntime/agr_jni_methods.c:65-69 | The new entry gets the next handle and can be found |
| JniMethods.Table.IdIn | Runtime/GuestRuntime/agr_jni_methods.c:42-71 | The same as Id once there are buckets |
| JniMethods.Table.Id | Runtime/GuestRuntime/agr_jni_methods.c:38-71 | A known key keeps its handle; a new one gets the next; it fails exactly for class 0, a full table or a failed allocation, and then adds nothing |
| JniMethods.Table.Bind | Runtime/GuestRuntime/agr_jni_methods.c:72-79 | Sets the address of exactly this key's method, adding it if need be; exactly when it fails |
| JniMethods.Table.NativeAddress | Runtime/GuestRuntime/agr_jni_methods.c:80-90 | The address bound to the key, or 0 |
| JniMethods.Table.Lookup | Runtime/GuestRuntime/agr_jni_methods.c:91-97 | Finds exactly the entry with this handle, so it inverts Id |
| JniMethods.HandlesAreInjective | Runtime/GuestRuntime/agr_jni_methods.c:65-69 | Two entries have the same handle exactly if they have the same class, name and signature |
| UpstreamMap.VisitEntry | ci/upstream-map.py:116-126 | One visit applies both rules to an entry: it reports a change exactly if progress was made, and no change only if the entry is settled |
| UpstreamMap.Invalidate | ci/upstream-map.py:112-127 | The loop ends for every graph, cyclic or with missing entries, in a state where no rule applies |
| UpstreamMap.TotalDrops | ci/upstream-map.py:121-125 | Every change lowers a weight, which is why the loop ends |
| UpstreamMap.ValidIffSound | ci/upstream-map.py:112-127 | An entry ends VALID exactly if it and everything it transitively depends on exist and started VALID |
| UpstreamMap.OrderIrrelevant | ci/upstream-map.py:114-126 | The final statuses are the same for every visiting order |
| UpstreamMap.FinalStatus | ci/upstream-map.py:112-127 | The final status of every entry in closed form: INVALID, STALE, or as it was |

## Left out

Whole areas that would add only shallow members or whose code is not there:

- EGL and GLES forwarding, asset and bitmap bindings, ARM instruction execution, the DEX machine, the body of dlmalloc, string dispatch, formatting, logging and CI summaries.
- Memory-order weakness: every guest atomic and every critical section is one sequentially consistent step. Races between components on the address space, which the code leaves to its callers.

Per component:

- GuestVma: growth of the region array is taken to succeed, here and in everything built on it. Its failure is modelled in `VmaGrowth` for the two places that lose data, not for the callers.
- GuestMmap: a missing or failing protection callback, and the errno pointer. Guest memory is one sequence of 2^32 bytes, starting at zero.
- ElfLoader: ELF header fields other than the program headers, and PT_GNU_RELRO. Segments that share a page are excluded: there the later one overwrites the earlier.
- ElfLoader.ReserveAddressSpace: excludes exactly the image whose lowest fit would itself end at 2^32, since the 32-bit end of its last segment wraps to 0 there and its anonymous pages would not be mapped (Runtime/AospLinker/agr_aosp_linker.cpp:176-217). Address spaces that end at 2^32 are included.
- ElfLoader.MapImage: the same exclusion.
- Heap: creation of the allocator's own state pages, and dlmalloc's use of what it gets.
- DynamicLinker: relocation, symbol lookup and dladdr; each file operation is one step that may fail. Names are base names already. Reference counts do not wrap. Host libraries have bias 0 and are never removed. Guest code does not re-enter the linker from constructors. After a dangling list nothing more is claimed.
- DynamicLinker.Linker.Dlclose: closes the first library with the handle, as the code does; which of several libraries with equal bias (host libraries) a caller meant is not modelled, so the caller is required to hold a claim on that first one. What happens without one is `LinkRestore.CloseNeedsClaim`.
- FutexRuns: at most 2^32 - 1 sleepers, so the 32-bit counters do not wrap; allocation failure of a queue.
- MutexProtocol: a normal mutex is unlocked only by its holder, since the code cannot tell; timeouts (no caller passes one), EINTR (this host never returns it), mutex destroy and attributes, missing callbacks. Accesses of the word may fail at any step.
- OnceProtocol: at most INT_MAX threads, the number one wake-all reaches; no fork.
- CondRuns: the mutex calls inside a wait, which touch another word and are `MutexProtocol`; at most INT_MAX threads. Which sleeper a signal reaches is not promised, because tokens are not targeted.
- ThreadLifecycle: thread attributes, allocation failure on create, the table that translates the host's error numbers (codes of the host are taken as already translated), wrap-around of the 32-bit handle, two shutdown calls at once, iterator validity of the table.
- Tls: the errno calls and allocation failure on registration. While a destructor runs, its own code and all other threads may make any calls of this interface, also ending registrations, except registering a block that overlaps another. The watch of CleanupThread supposes that from its moment on nobody else writes that slot, registers a block over it or deletes the key. Guest code that writes into a block directly is not modelled.
- Ehabi: finding the module and the backtrace loop, CPSR bits other than T, shifts of 32 and more in ULEB128 (undefined in C, taken as 0), stack words that overlap or are not aligned.
- EhabiPrologue: prologues that store sp itself or that a descriptor cannot express.
- ExidxSearch: record counts so large that the sum of two indices overflows an int.
- JniMethods: capacity arithmetic of the entry array and destruction; an allocation that fails is one event.
- UpstreamMap: the reason texts and the hashing that sets the initial statuses.
