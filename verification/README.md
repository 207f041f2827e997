# A model of mcfgthread's locks, thread-local storage and exit queues

mcfgthread builds every lock from one machine word, a compare-and-exchange loop and a rendezvous
of the kernel, the keyed event. A thread that cannot proceed counts itself in the word and sleeps;
a thread that lets go takes sleepers off the count and then releases exactly that many, each
release meeting one sleeper. A sleeper whose time is over may leave only if it can take itself off
the count; otherwise a release is already on its way to it and it has to stay. This project models
these protocols and proves them for every number of threads and every interleaving. It also models
the data structures that hang on them: the hash table of thread-local values, the queue of
destructors with its drains, the collection of CPUs, and two kernels of arithmetic.

## How it is built

- `AtomicWord`: what a retry loop is, and what it means that the code of one thread takes only
  steps of a transition system while other threads do anything the system allows between two of
  its accesses. `World.Retry` is the loop of load, decision and weak exchange, with spurious
  failures.
- `Mutex`, `SharedMutex`, `Once`, `Semaphore`, `Cond`: one transition system per lock. A step is a
  successful exchange, a load on which a decision rests, a timeout, or the meeting of a releasing
  thread with a sleeping one. `Tally` sums over threads.
- `KeyedEvent`: the rendezvous that all locks sleep on, once for all of them: the kernel wait, the
  loop of a sleeper that times out, and the loop of a releaser.
- `MutexCode`, `SharedMutexCode`, `OnceCode`, `SemaphoreCode`, `CondCode`: the loops of the source
  as methods. Each proves that a call performs exactly one operation of the system, that its result
  is what the system says, and that a call without a timeout does not time out. A call takes
  *turns*, in each of which the other threads act first; a call whose turns run out has no result
  yet, which is how waiting without end appears. What a call has found when it ends, and how long it
  has slept before, are ghost results. Each module ends with a method that starts from a
  fresh lock and makes a few calls, so the premises of the others can be met.
- `RecursiveMutex`: the mutex machine, the condition variable machine and one program counter per
  thread, composed; stores to the owner and the depth are separate steps. `RecursiveMutexCode` is
  its code.
- `MutexWord`, `SharedMutexWord`, `Bits`: the fields of the words, and the inline fast paths bit by
  bit.
- `TlsSlots`, `TlsTable`, `TlsDrain`: the hash table as a sequence of slots, as a class over an array
  with reference-counted keys in a heap, and what a thread's exit does to its values, round by round.
- `DtorSpec`, `DtorQueue`, `Finalize`: destructor queues as sequences, the chain of blocks that
  behaves as one, and what finalisation runs, in which order (Itanium C++ ABI, sections 3.3.3 and
  3.3.6.3).
- `CpuCollection`, `Clock`, `Timeouts`: sorting and search, division by a reciprocal, conversion
  and adjustment of timeouts.

Two things do not hold of the code as written. The first is a statement of its documentation, the
second what a function's name suggests:

- `mcfgthread/sem.h:58-59` says that a negative value tells how many threads wait.
  `Semaphore.NegativeValueCountsWaiters` proves that this is so if and only if no release is owed at
  that moment, and `Semaphore.NegativeValueCanMiscount` gives a run after which it is not.
- `do_divide_by_10000` (`mcfgthread/src/clock.c:16-28`) gives one too many for some arguments.
  `Clock.WideQuotient` says exactly for which, and `Clock.FirstWrongQuotient` names the first.

## Model

| member | source | states |
|---|---|---|
| AtomicWord.World.Retry | mcfgthread/src/mutex.c:60-104 | a retry loop takes its step exactly once, as the last thing that happens and after steps of others only, on the value that the word has at that moment, however often the weak exchange fails; besides one load and one exchange it needs further turns only when others or the processor interfere |
| AtomicWord.World.Begin | mcfgthread/src/mutex.c:60-61 | between two accesses other threads may take any steps, every run of theirs can happen, and they leave this thread where it is |
| AtomicWord.World.CompareExchangeWeak | mcfgthread/src/mutex.c:71-72 | a weak exchange is the step if it succeeds, on the expected value, and otherwise no step of this thread; it fails on the expected value only when others or the processor interfere |
| KeyedEvent.Wait | mcfgthread/src/mutex.c:193-195 | a kernel wait ends by meeting a releaser, or by a timeout if there is a time limit |
| KeyedEvent.Settle | mcfgthread/src/mutex.c:197-212 | a timed-out sleeper leaves exactly when it takes itself off the count that it finds at that moment, and otherwise stays |
| KeyedEvent.Sleep | mcfgthread/src/mutex.c:193-222 | sleeping ends with a release, or with the sleeper off the count and only if there is a time limit |
| KeyedEvent.BatchRelease | mcfgthread/src/xglobals.c:409-419 | exactly the given number of waiters is released, one at a time |
| MutexWord.NfailSaturates | mcfgthread/src/mutex.c:36-44 | the spinning failure counter saturates at 0 and at 15 |
| MutexWord.FreeSlotIsLowest | mcfgthread/src/mutex.c:78-86 | a spinning slot is found exactly when one is free, and it is one free bit below which all are taken |
| MutexWord.LockFastRefinesSlow | mcfgthread/mutex.h:150-155 | for every word, the inline fast path applies exactly when the slow path locks at once, and writes the same word |
| MutexWord.UnlockFastRefinesSlow | mcfgthread/mutex.h:169-175 | for every locked word, the inline unlock applies exactly when nobody spins or sleeps, and writes the word of the slow path |
| MutexWord.SpinBytesAreSeparate | mcfgthread/src/mutex.c:16-34 | the four slots of a mutex have distinct bytes inside the table |
| MutexWord.UnlockPokesFreedSlot | mcfgthread/src/mutex.c:243-257 | unlocking frees one slot, if any is taken, and pokes the byte of that very slot |
| MutexWord.LockChoices | mcfgthread/src/mutex.c:59-104 | for every word, exactly: an unlocked mutex is locked with one failure less; a locked one is refused without a change if and only if no time is left; otherwise the lowest free slot is added and nothing else, if there is one and there have been fewer than 10 failures, for 160 rounds less 16 for each failure; and else one sleeper and one failure are added |
| MutexWord.SpinChoices | mcfgthread/src/mutex.c:128-160 | for every word, exactly: a poked spinner locks an unlocked mutex, adds the lowest free slot and nothing else, or finds none and changes nothing |
| MutexWord.GiveUpChoices | mcfgthread/src/mutex.c:163-189 | for every word and slot, exactly: afterwards the slot is clear and every other bit of the mask is as found; an unlocked mutex is locked with one failure less, otherwise one sleeper and one failure are added, saturating |
| MutexWord.UnlockChoices | mcfgthread/src/mutex.c:236-246 | for every word, exactly: the lowest slot in use is taken away, if there is one, and one sleeper is to be released, if there is one; the failures are as found |
| Mutex.MutualExclusion | mcfgthread/src/mutex.c:59-189 | in every reachable state the locked bit is set exactly when some thread holds the mutex, and no two do |
| Mutex.SleeperAccounting | mcfgthread/src/mutex.c:191-261 | registered waiters are those in the sleeping count plus those owed a release; the count never wraps |
| Mutex.TimedOutWaiterMustStay | mcfgthread/src/mutex.c:194-222 | a timed-out waiter that finds the count at zero has a release on its way |
| Mutex.ReleaserHasWaiter | mcfgthread/src/xglobals.c:409-419 | a thread that owes a release always has a waiter to meet |
| Mutex.NoLostWakeup | mcfgthread/src/mutex.c:163-189 | if the mutex is free and a sleeper is counted, a release is owed or a woken thread is about to try again |
| Mutex.QuietMeansHeld | mcfgthread/src/mutex.c:163-189 | if threads only sleep or are outside, and one sleeps, then somebody holds the mutex |
| Mutex.SleepersJoinOnlyWhileLocked | mcfgthread/src/mutex.c:91-189 | the count grows only in steps that find the mutex locked and keep it so, including giving up spinning |
| Mutex.LockResultMeansOwnership | mcfgthread/src/mutex.c:59-227 | 0 is returned exactly with new ownership of a mutex that was free; -1 leaves ownership alone |
| Mutex.NoTimeoutMeansSuccess | mcfgthread/src/mutex.c:55-58 | a call without a timeout can only end with 0 |
| Mutex.TimeLeft | mcfgthread/src/mutex.c:46-58 | over every run, the time that a call has left is its converted argument less all the time it has slept |
| Mutex.RefusedExactly | mcfgthread/src/mutex.c:62-77 | over every run, an attempt returns 0 if and only if the mutex is unlocked, and -1 if and only if it is locked and the timeout was zero or relative and all slept away; a refusal changes nothing else |
| Mutex.SettleOutcome | mcfgthread/src/mutex.c:194-222 | a timed-out waiter leaves with -1 and one sleeper less if one is counted, and otherwise waits again with a zero timeout |
| Mutex.OwnershipIsPrivate | mcfgthread/src/mutex.c:59-261 | no step of one thread changes what another one holds |
| Mutex.StepKeepsInv | mcfgthread/src/mutex.c:59-261 | every step keeps the joint invariant of locked bit, count, owed releases and woken threads |
| MutexCode.TryLockLoop | mcfgthread/src/mutex.c:59-104 | the loop at the retry label, on the word found at that moment, exactly: locks, refuses with no time left, adds one free slot and spins in it, or counts itself as a sleeper; the word written is stated in each case |
| MutexCode.PokedLoop | mcfgthread/src/mutex.c:128-160 | a poked spinner locks, moves to another slot, or stops spinning, exactly by the word found at that moment; moving adds the one free bit |
| MutexCode.GiveUpLoop | mcfgthread/src/mutex.c:163-189 | after spinning in vain a thread locks a free mutex or counts itself as a sleeper; either way the mask written has no bit of its slot and every other bit of the word found at that moment, and the failures go down or up by one |
| MutexCode.SpinTurn | mcfgthread/src/mutex.c:112-160 | one round of spinning uses up one unit of the budget |
| MutexCode.SpinOut | mcfgthread/src/mutex.c:111-161 | the loop of rounds ends with the mutex, with the budget used up, or without a slot |
| MutexCode.SpinLoop | mcfgthread/src/mutex.c:108-189 | spinning ends, with the mutex or as a sleeper |
| MutexCode.SleepLoop | mcfgthread/src/mutex.c:193-222 | sleeping ends with a release or with the waiter off the count, and never times out without a timeout |
| MutexCode.SleepOn | mcfgthread/src/mutex.c:191-227 | a released sleeper goes on with its time less all that the call has slept |
| MutexCode.Attempt | mcfgthread/src/mutex.c:59-189 | one attempt, spinning included, ends with the mutex found unlocked, with a refusal by a locked one with no time left, or as a sleeper |
| MutexCode.LockFrom | mcfgthread/src/mutex.c:59-227 | from the retry label on, a call ends with 0 and the mutex, found unlocked at that moment; or with -1 and without, having found it locked with all its time slept away, or having left while it was counted; undisturbed, it locks an unlocked mutex and refuses a locked one with no time in two turns |
| MutexCode.LockSlow | mcfgthread/src/mutex.c:46-227 | whatever other threads do, the call is one lock operation of the system: 0 with the mutex held, -1 with nothing changed and only if there was a timeout; how it ends is tied to the word found at that moment and to the time slept, so -1 without having slept or timed out means a zero timeout |
| MutexCode.LockInline | mcfgthread/mutex.h:141-158 | the same for the inline function |
| MutexCode.ReleaseAll | mcfgthread/src/xglobals.c:409-419 | exactly the given number of waiters is released |
| MutexCode.UnlockSlow | mcfgthread/src/mutex.c:229-261 | the call is one unlock operation, after which the thread holds nothing and owes nothing |
| MutexCode.UnlockInline | mcfgthread/mutex.h:160-178 | the same for the inline function |
| MutexCode.MachineIsLawful | mcfgthread/src/mutex.c:59-261 | no step looks at anything but the word and the thread that takes it |
| MutexCode.ReplayIsExecution | mcfgthread/src/mutex.c:59-261 | what one thread sees as a run is a run of the mutex |
| MutexCode.WorldIsReachable | mcfgthread/src/mutex.c:59-261 | every state that the code reaches is a reachable state of the system |
| MutexCode.AcquiredExcludesOthers | mcfgthread/src/mutex.c:62-73 | when a lock call has returned 0, nobody else holds the mutex |
| MutexCode.WaitIsLawful | mcfgthread/src/mutex.c:191-222 | being released and timing out do to a mutex waiter what the rendezvous says |
| MutexCode.SettleIsLawful | mcfgthread/src/mutex.c:197-212 | a timed-out mutex waiter leaves with -1 or goes back to the same wait |
| MutexCode.CriticalSection | mcfgthread/src/mutex.c:46-261 | from an unlocked mutex, a thread locks it, is alone in holding it, and unlocks it, whatever the others do |
| SharedMutexWord.MaskedDecrement | mcfgthread/src/shared_mutex.c:126 | the masked decrement subtracts one from a reader count and clears a writer mark |
| SharedMutexWord.MaskedWake | mcfgthread/src/shared_mutex.c:127 | the masked wake count is the whole sleeping count for the last one out, and zero for others |
| SharedMutexWord.UnlockSlowIsDecision | mcfgthread/src/shared_mutex.c:123-133 | for every word in use, the bit-field code releases one share or the writer and wakes all exactly at the end |
| SharedMutexWord.UnlockFastRefinesSlow | mcfgthread/shared_mutex.h:240-246 | the inline unlock writes the word of the slow path, for exactly the words without sleepers |
| SharedMutexWord.LockSharedFastRefinesSlow | mcfgthread/shared_mutex.h:202-207 | the inline shared lock applies exactly when the slow path grants a share at once, and writes the same word |
| SharedMutexWord.LockExclusiveFastRefinesSlow | mcfgthread/shared_mutex.h:221-226 | likewise for the exclusive lock |
| SharedMutexWord.LockChoices | mcfgthread/src/shared_mutex.c:26-57 | for every word, exactly: a share is granted if and only if there are fewer than 16382 and nobody sleeps, the exclusive ownership if and only if there is no owner; what cannot be granted is refused without a change if and only if no time is left |
| SharedMutexWord.UnlockChoices | mcfgthread/src/shared_mutex.c:122-133 | for every word in use, exactly: the writer or the last reader leaves a free word and all sleepers to be released, another reader takes one off the count |
| SharedMutex.ReadersOrOneWriter | mcfgthread/src/shared_mutex.c:26-57 | the packed count is the number of shares, at most 16382, or the mark of the one writer, who excludes everybody else |
| SharedMutex.CountHasOwner | mcfgthread/src/shared_mutex.c:26-137 | the count is zero exactly when nobody owns anything |
| SharedMutex.SleeperAccounting | mcfgthread/src/shared_mutex.c:49-137 | registered waiters are those counted plus those owed a release |
| SharedMutex.FreeMeansAllOwed | mcfgthread/src/shared_mutex.c:122-136 | a free mutex has no counted sleeper, so every registered waiter is owed a release |
| SharedMutex.TimedOutWaiterMustStay | mcfgthread/src/shared_mutex.c:62-88 | a timed-out waiter that finds the count at zero has a release on its way |
| SharedMutex.ReleaserHasWaiter | mcfgthread/src/shared_mutex.c:135-136 | a releaser always has a waiter to meet |
| SharedMutex.QuietMeansOwned | mcfgthread/src/shared_mutex.c:26-137 | sleepers sleep only because somebody owns the mutex |
| SharedMutex.LockResultMeansOwnership | mcfgthread/src/shared_mutex.c:26-93 | 0 comes with what was asked for, which nobody stood in the way of; -1 leaves ownership alone |
| SharedMutex.NoTimeoutMeansSuccess | mcfgthread/src/shared_mutex.c:21-24 | a call without a timeout can only end with 0 |
| SharedMutex.TimeLeft | mcfgthread/src/shared_mutex.c:14-25 | over every run, the time that a call has left is its converted argument less all the time it has slept |
| SharedMutex.AnsweredExactly | mcfgthread/src/shared_mutex.c:26-57 | over every run, an attempt returns 0 if and only if what was asked for can be had, and -1 if and only if it cannot and the timeout was zero or all slept away; a refusal changes nothing else |
| SharedMutex.SettleOutcome | mcfgthread/src/shared_mutex.c:61-88 | a timed-out waiter leaves with -1 and one sleeper less if one is counted, and otherwise waits again with a zero timeout |
| SharedMutex.NoNewReadersPastSleepers | mcfgthread/src/shared_mutex.c:29-37 | while a sleeper is counted no reader gets in |
| SharedMutexCode.SleepLoop | mcfgthread/src/shared_mutex.c:61-88 | sleeping ends with a release or with the waiter off the count |
| SharedMutexCode.TryLockLoop | mcfgthread/src/shared_mutex.c:26-57 | the loop at the retry label, on the word found at that moment, exactly: grants, refuses with no time left, or counts the thread as a sleeper |
| SharedMutexCode.LockFrom | mcfgthread/src/shared_mutex.c:26-93 | from the retry label on: 0 exactly by an attempt that finds that it can be granted, -1 by one that finds that it cannot with all time slept away, or by leaving while counted |
| SharedMutexCode.LockCommon | mcfgthread/src/shared_mutex.c:14-93 | the call is one lock operation: 0 with what was asked for, -1 with nothing changed and only if there was a timeout; how it ends is tied to the word found at that moment and to the time slept |
| SharedMutexCode.UnlockSlow | mcfgthread/src/shared_mutex.c:109-137 | the call is one unlock operation, after which the thread has one ownership less and owes nothing |
| SharedMutexCode.WorldIsReachable | mcfgthread/src/shared_mutex.c:26-137 | every state that the code reaches is a reachable state of the system |
| SharedMutexCode.LockAndUnlock | mcfgthread/src/shared_mutex.c:14-137 | from an unlocked mutex, a thread locks it, has no writer beside it and no reader if it is a writer, and unlocks it |
| Once.OneInitialiser | mcfgthread/src/once.c:26-142 | at most one thread has the initialiser role, exactly while the flag is locked, and never once it is ready; so the assertions in abort and release hold |
| Once.CompletesAtMostOnce | mcfgthread/src/once.c:123-142 | no run completes the initialisation twice |
| Once.SleeperAccounting | mcfgthread/src/once.c:48-142 | registered waiters are those counted plus those owed a release |
| Once.TimedOutWaiterMustStay | mcfgthread/src/once.c:61-88 | a timed-out waiter that finds the count at zero has a release on its way |
| Once.ReleaserHasWaiter | mcfgthread/src/once.c:118-142 | a releaser always has a waiter to meet |
| Once.QuietMeansInitialising | mcfgthread/src/once.c:26-142 | sleepers sleep only while somebody initialises |
| Once.WaitResultMeaning | mcfgthread/src/once.c:28-78 | 1 hands over the role of a free flag, 0 means ready, -1 not ready; leaving the count always returns -1 |
| Once.WaitChoices | mcfgthread/src/once.c:26-56 | for every word, exactly: 0 on a ready flag, 1 on one that is neither ready nor locked, whatever the timeout, and -1 on a locked one with no time left; the word written is stated in each case |
| Once.TryWaitResult | mcfgthread/src/once.c:26-56 | in every state, an attempt returns 1 if and only if the flag is neither ready nor locked, -1 if and only if it is locked and not ready and no time is left, 0 if and only if it is ready |
| Once.TimeLeft | mcfgthread/src/once.c:14-25 | over every run, the time that a call has left is its converted argument less all the time it has slept |
| Once.AnsweredExactly | mcfgthread/src/once.c:26-56 | over every run, the same for a whole call, with -1 if and only if somebody initialises and the timeout was zero or all slept away; the role goes with 1 alone |
| Once.ReportOutcome | mcfgthread/src/once.c:95-142 | in every reachable state, aborting frees the flag and takes one sleeper off if there is one, and completing makes it ready and takes all of them off |
| Once.SettleOutcome | mcfgthread/src/once.c:60-88 | a timed-out waiter leaves with -1 and one sleeper less if one is counted, and otherwise waits again with a zero timeout |
| Once.ReadyIsFinal | mcfgthread/src/once.c:123-142 | once the flag is ready no step changes the word |
| Once.ReadyWordStays | mcfgthread/src/once.c:123-142 | over every run a ready word stays as it is |
| Once.ReadyRunsReturnZero | mcfgthread/src/once.c:26-93 | once ready, every call under way, even one that has timed out, returns 0, and so do all later ones |
| Once.NoTimeoutMeansSuccess | mcfgthread/src/once.c:21-24 | a call without a timeout returns 0 or 1 |
| Once.FastReadyTest | mcfgthread/once.h:192-203 | the inline test of the lowest bit is the test of the slow path |
| OnceCode.StateInv | mcfgthread/src/once.c:26-142 | every state that the code reaches satisfies the invariant of the system |
| OnceCode.PastInv | mcfgthread/src/once.c:26-142 | so does every earlier state |
| OnceCode.SleepLoop | mcfgthread/src/once.c:60-88 | sleeping ends with a release, or with the waiter off the count and -1, and the latter only with a time limit |
| OnceCode.TryWaitLoop | mcfgthread/src/once.c:26-56 | the loop at the retry label, on the word found at that moment, exactly: 0 on a ready flag, the role with 1 on one that is free, -1 on a locked one with no time left, or counts the thread as a sleeper |
| OnceCode.WaitFrom | mcfgthread/src/once.c:26-93 | from the retry label on, exactly by the word found at that moment: 0 on a ready flag, 1 and the role on a free one, -1 on a locked one with all time slept away, or -1 by leaving while counted; undisturbed, it answers in two turns unless it has to sleep |
| OnceCode.WaitSlow | mcfgthread/src/once.c:14-93 | the call is one wait operation with the same exact results, the time slept taken off the converted timeout; a wait with timeout zero on a fresh flag gets the role; the role goes with 1, and -1 needs a timeout |
| OnceCode.AbortSlow | mcfgthread/src/once.c:95-120 | the call is one abort operation; the role is given up and nothing is owed afterwards |
| OnceCode.ReleaseSlow | mcfgthread/src/once.c:122-142 | the call is one release operation; the role is given up, all counted waiters have been released, and the flag is ready then and from then on |
| OnceCode.CallOnce | mcfgthread/gthr_aux.h:342-355 | one part in an initialisation: wait, and report back if told to initialise; in the end the flag is ready unless the own attempt has failed |
| Semaphore.WakesTheDifference | mcfgthread/src/sem.c:94-104 | a signal goes through exactly when the sum fits, and wakes exactly the drop in the number of sleepers |
| Semaphore.PermitsAreConserved | mcfgthread/src/sem.c:26-109 | value, registered waiters and successful waits add up to all permits ever issued, which successful waits never exceed |
| Semaphore.ValueInRange | mcfgthread/src/sem.c:27-109 | the value never leaves the range of the word |
| Semaphore.PermitsAreEarned | mcfgthread/src/sem.c:27-78 | a step gets a thread a permit exactly if it is a wait on a positive value or a meeting with a releaser, and then the wait returns 0 |
| Semaphore.SignalResults | mcfgthread/src/sem.c:85-108 | -1 exactly for a bad argument and -2 exactly when the sum does not fit, both with no effect; otherwise all permits are added and the drop in sleepers is to be released |
| Semaphore.AnsweredExactly | mcfgthread/src/sem.c:26-46 | over every run, the first look takes a permit if and only if the value is positive, and otherwise refuses without a change if and only if the timeout is zero, and sleeps if not |
| Semaphore.TimeLeft | mcfgthread/src/sem.c:14-25 | over every run, a call has its converted argument left, as it sleeps once |
| Semaphore.SettleOutcome | mcfgthread/src/sem.c:50-74 | a timed-out waiter leaves with -1 and one sleeper less if the value is negative, and otherwise waits again with a zero timeout |
| Semaphore.TimedOutWaiterMustStay | mcfgthread/src/sem.c:51-74 | a timed-out waiter that finds no negative value has a release on its way |
| Semaphore.ReleaserHasWaiter | mcfgthread/src/sem.c:106-107 | a releaser always has a waiter to meet |
| Semaphore.QuietMeansEmpty | mcfgthread/src/sem.c:26-109 | when threads only sleep, every permit ever issued has been taken |
| Semaphore.NegativeValueCountsWaiters | mcfgthread/sem.h:56-66 | a negative value tells the number of waiters if and only if no release is owed |
| Semaphore.NegativeValueCanMiscount | mcfgthread/sem.h:56-66 | a run after which two threads wait and the value is -1 |
| SemaphoreCode.SleepLoop | mcfgthread/src/sem.c:50-74 | sleeping ends with a release and a permit, or with the waiter off the count and -1 |
| SemaphoreCode.TryWaitLoop | mcfgthread/src/sem.c:26-46 | the first loop, on the value found at that moment, exactly: takes a permit, refuses with no time left, or counts the thread as a sleeper |
| SemaphoreCode.WaitFrom | mcfgthread/src/sem.c:26-79 | a wait ends by its first look, by meeting a releaser, or by leaving while the value is negative, each with its exact result |
| SemaphoreCode.Wait | mcfgthread/src/sem.c:14-79 | the call is one wait operation: 0 exactly with one more permit taken by this thread, -1 only if there was a timeout; 0 at once if and only if a positive value was found, -1 at once if and only if none was and the timeout is zero |
| SemaphoreCode.SignalSome | mcfgthread/src/sem.c:81-109 | the call is one signal operation: -1 exactly for a bad argument, -2 exactly when the sum with the value at that moment is too large, 0 exactly when the permits of this thread have been added; nothing is owed afterwards |
| SemaphoreCode.WorldIsReachable | mcfgthread/src/sem.c:26-109 | every state that the code reaches is a reachable state of the system |
| SemaphoreCode.TakeAndReturn | mcfgthread/src/sem.c:14-109 | from a fresh semaphore, a thread takes one permit and gives one back, whatever the others do |
| Cond.WaiterAccounting | mcfgthread/src/cond.c:27-128 | registered waiters are those counted plus those owed; waits begun are under way, woken or timed out; claimed wake-ups are delivered or owed |
| Cond.SignalClaims | mcfgthread/src/cond.c:101-128 | a signal claims as many waiters as its limit allows of those without a release coming, from their registration on |
| Cond.SleepsAsLongAsAsked | mcfgthread/src/cond.c:37-72 | over every run, a waiter sleeps for its converted argument, and with a zero timeout once it has timed out and has to stay |
| Cond.WokenWaitsReturnZero | mcfgthread/src/cond.c:74-77 | a wait ends with 0 only by meeting a releaser |
| Cond.TimedOutWaitsLeave | mcfgthread/src/cond.c:46-62 | a wait ends with -1 by taking itself off the count, and takes no wake-up from anybody |
| Cond.OnlyLeavingTimesOut | mcfgthread/src/cond.c:45-77 | nothing else ends a wait with -1 |
| Cond.TimedOutWaiterMustStay | mcfgthread/src/cond.c:46-72 | a timed-out waiter that finds the count at zero has a release on its way |
| Cond.ReleaserHasWaiter | mcfgthread/src/cond.c:125-126 | a releaser always has a waiter to meet |
| Cond.QuietMeansDelivered | mcfgthread/src/cond.c:27-128 | when threads only sleep, every claimed wake-up has been delivered |
| CondCode.SleepLoop | mcfgthread/src/cond.c:45-72 | sleeping ends with a release or with the waiter off the count |
| CondCode.UnlockAndWait | mcfgthread/src/cond.c:14-77 | the steps of the thread begin with its registration, and then comes the unlock callback |
| CondCode.Wait | mcfgthread/src/cond.c:79-99 | the call is one wait operation, from registration and unlock callback to relock callback, in this order: 0 when woken, -1 only if there was a timeout |
| CondCode.SignalSome | mcfgthread/src/cond.c:101-128 | the call is one signal operation, which wakes and returns the lesser of its limit and the waiters counted at one moment of the call, and owes nothing afterwards |
| CondCode.WorldIsReachable | mcfgthread/src/cond.c:27-128 | every state that the code reaches is a reachable state of the system |
| CondCode.WaitAndSignal | mcfgthread/src/cond.c:14-128 | from a fresh condition variable, a thread waits and then signals, whatever the others do |
| RecursiveMutex.UnlockedMeansNoOwner | mcfgthread/gthr_aux.h:400-415 | while the inner mutex is unlocked there is no owner and no depth |
| RecursiveMutex.OwnerHolds | mcfgthread/gthr_aux.h:367-398 | the owner is always the thread that holds the inner mutex |
| RecursiveMutex.RecurseOnlyByHolder | mcfgthread/gthr_aux.h:367-380 | recursion succeeds exactly for the thread that holds the inner mutex, and then nobody else holds it |
| RecursiveMutex.AssertionsHold | mcfgthread/gthr_aux.h:382-415 | every assertion about owner and depth, here and in the two callbacks, holds whenever it is reached |
| RecursiveMutex.RelockCannotFail | mcfgthread/src/gthr_aux.c:115-125 | the ignored result of the inner lock is always success |
| RecursiveMutex.TimeLimitsPassedOn | mcfgthread/gthr_aux.h:382-398 | the time limit of a lock call is that of the inner lock, that of a condition wait is that of the condition variable, and the lock that ends a condition wait has none |
| RecursiveMutex.WaitBegins | mcfgthread/src/gthr_aux.c:127-135 | a condition wait begins at the current depth |
| RecursiveMutex.WaitRestoresDepth | mcfgthread/src/gthr_aux.c:102-135 | over every run, a condition wait that began at depth d is still going on, or has returned with the same owner at depth d |
| RecursiveMutex.WaitReturns | mcfgthread/src/gthr_aux.c:115-135 | the wait returns what the condition variable said, and as the owner either way |
| RecursiveMutex.WhyWaitsEnd | mcfgthread/src/gthr_aux.c:127-135 | over every run, a wait ends with 0 only after a release and with -1 only after the thread has taken itself off the count |
| RecursiveMutex.UnlimitedWaitsSucceed | mcfgthread/src/gthr_aux.c:127-135 | over every run, a wait without a timeout has not ended, or has ended with 0 |
| RecursiveMutex.StepKeepsInv | mcfgthread/src/gthr_aux.c:102-135 | every step of the composed system keeps its invariant |
| RecursiveMutexCode.StateInv | mcfgthread/gthr_aux.h:367-415 | every state that the code reaches satisfies the invariant of the composed system |
| RecursiveMutexCode.Statement | mcfgthread/gthr_aux.h:382-415 | what each statement does, and that the assertion before it holds |
| RecursiveMutexCode.ForeignSteps | mcfgthread/gthr_aux.h:367-415 | other threads never change whether a thread is the owner, nor the depth of an owner |
| RecursiveMutexCode.Recurse | mcfgthread/gthr_aux.h:367-380 | 0 and one level deeper exactly for the owner, -1 and no change for others |
| RecursiveMutexCode.Wait | mcfgthread/gthr_aux.h:382-398 | 0 as the owner at depth 1, which a thread that already is the owner cannot get; -1 only with a timeout, and with the ownership as it was |
| RecursiveMutexCode.Release | mcfgthread/gthr_aux.h:400-415 | one level less, and not the owner after the last |
| RecursiveMutexCode.UnlockCallback | mcfgthread/src/gthr_aux.c:102-113 | the callback returns the depth and lets go of everything |
| RecursiveMutexCode.RelockCallback | mcfgthread/src/gthr_aux.c:115-125 | the callback makes the thread the owner at the given depth |
| RecursiveMutexCode.CondRecursiveMutexWait | mcfgthread/src/gthr_aux.c:127-135 | whatever other threads do, the thread is the owner again at the depth it had; it returns 0 only if a release has come since, -1 only if it has timed out and taken itself off the count since, and not without a timeout |
| RecursiveMutexCode.LockTwiceAndWait | mcfgthread/gthr_aux.h:367-415 | from a fresh recursive mutex, a thread locks twice, waits at depth 2, has depth 2 again, and unlocks twice |
| TlsSlots.Origin | mcfgthread/src/tls.c:54-58 | the first slot probed is inside the table, whatever the key and the size |
| TlsSlots.ProbeMisses | mcfgthread/src/tls.c:64-74 | if probing ends at an empty slot the key is nowhere in the table |
| TlsSlots.FillIsSound | mcfgthread/src/tls.c:166-169 | filling a key in where probing ends makes no hole and no duplicate |
| TlsSlots.EntriesUpdate | mcfgthread/src/tls.c:166-174 | writing a key to its slot sets exactly that key in the map |
| TlsSlots.ProbeFinds | mcfgthread/src/tls.c:87-92 | probing ends at an occupied slot exactly when the map has the key, and there is its value |
| TlsSlots.ExistsIffReferenced | mcfgthread/src/tls.c:30-41 | a key exists exactly as long as a slot or somebody else refers to it |
| TlsSlots.ReleasingOwnReferences | mcfgthread/src/tls.c:218-221 | giving up keys and their references leaves everybody else's references alone |
| TlsSlots.DroppingForeignReference | mcfgthread/src/tls.c:30-41 | users dropping their own references leave the table sound |
| TlsSlots.DeletingKey | mcfgthread/tls.h:252-259 | deleting a key takes its value from the callers' view and changes nothing else |
| TlsSlots.RelocatedOneMore | mcfgthread/src/tls.c:133-152 | what relocating one more element adds to the new table, or releases |
| TlsSlots.LiveWithoutDeleted | mcfgthread/src/tls.c:140-144 | leaving deleted keys behind does not change the callers' view |
| TlsSlots.LastValueWins | mcfgthread/src/tls.c:77-176 | after any sequence of sets and deletions a key that was not deleted has the value last stored, and a deleted one none |
| TlsTable.KeyHeap.New | mcfgthread/src/tls.c:15-28 | a new key has one reference and is not deleted |
| TlsTable.KeyHeap.DropRef | mcfgthread/src/tls.c:30-41 | one reference less; the last one frees the key |
| TlsTable.KeyHeap.Delete | mcfgthread/tls.h:252-259 | the key is marked and one reference dropped |
| TlsTable.Table.Probe | mcfgthread/src/tls.c:43-75 | probing with wrap-around always ends, at the key's slot or at the empty one where it belongs |
| TlsTable.Table.Get | mcfgthread/src/tls.c:77-93 | the value in the callers' view, null if there is none |
| TlsTable.Table.Store | mcfgthread/src/tls.c:159-174 | one key is set in the map, and the size hint stays the number of occupied slots |
| TlsTable.Table.Relocate | mcfgthread/src/tls.c:136-151 | a live key moves to the new table, a deleted one loses its reference |
| TlsTable.Table.CountCapacity | mcfgthread/src/tls.c:112-119 | 17 slots and three for each key that is not deleted |
| TlsTable.Table.TakeOver | mcfgthread/src/tls.c:132-152 | the new table has exactly the keys that are not deleted, the others are released, and it is less than half full |
| TlsTable.Table.Grow | mcfgthread/src/tls.c:111-157 | without memory nothing changes; otherwise the table is larger and holds the keys that are not deleted |
| TlsTable.Table.MakeRoom | mcfgthread/src/tls.c:111-157 | growing happens only for a new non-null value in a full table, and is invisible to callers |
| TlsTable.Table.Assign | mcfgthread/src/tls.c:159-175 | the previous value is reported and the view updated; a null value is not stored for a new key |
| TlsTable.Table.XSet | mcfgthread/src/tls.c:95-176 | -1 exactly for a deleted key, -2 exactly when a non-null value finds at least half of the slots in use and no memory, both without any change; 0 with the previous value and the view updated; the table holds the key afterwards if and only if it did before or the value is not null; nobody else's references change |
| TlsTable.Table.PerformAll | mcfgthread/src/tls.c:95-176 | over any sequence of requests to a new table, every value for which there is memory is stored and the previous one reported, unless the key was deleted, and in the end every key has the value last stored unless it was deleted |
| TlsTable.Table.Perform | mcfgthread/src/tls.c:95-176 | one request leaves the view and the deletion marks as the operation says, and is refused only for a deleted key or for want of memory |
| TlsTable.Table.FindRipe | mcfgthread/src/tls.c:209-215 | from any starting slot, something to pop is found exactly when there is something, and it is the next one with wrap-around |
| TlsTable.Table.PopAt | mcfgthread/src/tls.c:178-187 | exactly this key's value leaves the view; the key keeps its slot and its reference |
| TlsTable.Table.Clear | mcfgthread/src/tls.c:218-226 | every key in the table loses exactly one reference |
| TlsTable.Table.Pop | mcfgthread/src/tls.c:189-227 | one pair of the view is popped if there is one, and it is the one in the first slot after the hint that holds something, with wrap-around; otherwise the table gives up its keys and its storage |
| TlsTable.Table.Drain | mcfgthread/src/xglobals.c:694-697 | for every script of what destructors set: draining ends with nothing left; it is a sequence of rounds, each popping a value that is there and making the calls of its destructor, each call stored unless the key is deleted or there is no memory; the destructors invoked are exactly those of the values popped, in order; a value whose key no destructor sets is popped; if they set nothing, every pair comes out exactly once; no reference is left behind |
| TlsDrain.NothingIsLost | mcfgthread/src/xglobals.c:694-697 | over every complete drain, a value that is there after any number of rounds is popped, or a destructor overwrites it, in the first later round that has to do with its key |
| TlsDrain.StoredIsDelivered | mcfgthread/src/xglobals.c:694-697 | over every complete drain, a non-null value that a destructor stores is popped later or overwritten by a later call |
| TlsDrain.UntouchedIsPopped | mcfgthread/src/xglobals.c:694-697 | over every complete drain, a value that is there at first and whose key no destructor sets is popped |
| TlsDrain.QuietDrain | mcfgthread/src/xglobals.c:694-697 | if no destructor sets anything, what is popped is what there was at first, each key once |
| TlsTable.Table.RunCalls | mcfgthread/src/tls.c:95-176 | the calls of one destructor leave the view as each of them in turn stores or does not store its value, which it does unless the key is deleted or there is no memory |
| TlsTable.Table.Turn | mcfgthread/src/xglobals.c:695-697 | one round: a value of the view is popped, its destructor, if there is one, is invoked with it, and its calls are made on the view without that value |
| TlsTable.Table.Invoke | mcfgthread/src/xglobals.c:696-697 | a destructor is called exactly if the key has one |
| TlsTable.Table.DrainTurn | mcfgthread/src/xglobals.c:695-697 | one turn of the drain adds one round to the account of what is popped, invoked and left, as long as there is a value |
| TlsTable.ThreadLifetime | mcfgthread/src/xglobals.c:694-697 | one thread with one key: the value set is there, goes to the destructor at exit, and the key is left with the reference of its user |
| TlsTable.GrowingIsInvisible | mcfgthread/src/tls.c:111-157 | growing changes neither the view nor anybody else's references |
| DtorSpec.KeepAndMatchingMembers | mcfgthread/dtor_queue.h:70-96 | an entry is kept exactly when it does not match |
| DtorSpec.TakingTheNewest | mcfgthread/dtor_queue.h:70-83 | taking the newest match takes the first of the matching entries and keeps the order of the rest |
| DtorSpec.KeepAndMatchingSplit | mcfgthread/dtor_queue.h:89-96 | kept and matching entries together are the queue |
| DtorSpec.PopUndoesPush | mcfgthread/dtor_queue.h:55-83 | popping undoes a push whose handle matches |
| DtorQueue.Block.FindNewest | mcfgthread/src/dtor_queue.c:60-63 | the backward search of one block, with its 32-bit wrap, finds the newest match |
| DtorQueue.Block.TakeAt | mcfgthread/src/dtor_queue.c:67-74 | taking one entry closes the gap |
| DtorQueue.Block.Compact | mcfgthread/src/dtor_queue.c:83-90 | the forward pass keeps exactly the entries that do not match, in order |
| DtorQueue.Queue.ReserveAndPush | mcfgthread/src/dtor_queue.c:15-41 | the chain as one sequence has the new entry at its end; the two errors, exactly when, with no change; room for the rest of the reservation |
| DtorQueue.Queue.Spill | mcfgthread/src/dtor_queue.c:25-32 | moving the first block behind itself changes no contents |
| DtorQueue.Queue.Push | mcfgthread/src/dtor_queue.c:43-48 | a push of one |
| DtorQueue.Queue.Absorb | mcfgthread/src/dtor_queue.c:100-101 | replacing an empty block by the one behind it keeps the chain and its contents |
| DtorQueue.Queue.PopCommon | mcfgthread/src/dtor_queue.c:50-113 | over the whole chain, in place: the newest match is taken, or all matches are removed and counted; the walk ends |
| DtorQueue.Queue.Pop | mcfgthread/src/dtor_queue.c:115-121 | 0 with the newest match of the sequence, or -1 and no change |
| DtorQueue.Queue.Remove | mcfgthread/src/dtor_queue.c:123-128 | a filter of the sequence, with the exact number removed |
| DtorQueue.PushReserved | mcfgthread/dtor_queue.h:39-48 | after a push with reservation r the next r - 1 pushes succeed without memory |
| Finalize.DrainKeepsTheOthers | mcfgthread/src/cxa.c:108-109 | entries that do not match keep their order, also those registered meanwhile |
| Finalize.DrainRunsEachOnce | mcfgthread/src/cxa.c:108-109 | matching entries, also those registered meanwhile, run exactly once, and nothing else runs |
| Finalize.DrainIsNewestFirst | mcfgthread/src/cxa.c:108-109 | without registrations, matching entries run newest first |
| Finalize.DrainSeesOnlyMatching | mcfgthread/src/cxa.c:108-109 | what runs depends on the matching entries only |
| Finalize.NewerEntriesRunFirst | mcfgthread/src/cxa.c:108-109 | entries registered by a running callback run before older ones |
| Finalize.DrainLeavesNoMatch | mcfgthread/src/xglobals.c:487-495 | after a drain nothing matches |
| Finalize.NullHandleDrainsAll | mcfgthread/src/cxa.c:116-117 | a null handle leaves nothing behind |
| Finalize.QuietFinalization | mcfgthread/src/cxa.c:112-128 | without registrations: matching thread entries newest first if there is a thread structure, whose queue is untouched otherwise, then matching static ones newest first; the rest in order; the quick-exit queue loses its matching entries |
| Finalize.FinalizationOrder | mcfgthread/src/cxa.c:112-128 | whatever callbacks register, with a thread structure or without, all thread entries run before static ones, and no static or quick-exit match is left |
| Finalize.FinalizationAccount | mcfgthread/src/cxa.c:112-128 | whatever callbacks register, with a thread structure or without: the matching ones of all thread entries registered up to the end of the first part run in it, each once; the matching ones of all static entries, registered at any time, run in the second, each once; nothing else runs; the others stay in order, and matching quick-exit entries are dropped |
| Finalize.Registry.FinalizeThread | mcfgthread/src/cxa.c:98-110 | the loop over the thread's queue, a chain of blocks, is a drain of the sequence that it holds; the other queues get what is registered meanwhile |
| Finalize.Registry.RunStatic | mcfgthread/src/xglobals.c:487-495 | likewise the loop over the static queue |
| Finalize.Registry.Finalize | mcfgthread/src/cxa.c:112-128 | the whole of finalisation on three chains of blocks, with or without a thread structure |
| Finalize.Registry.Invoke | mcfgthread/src/cxa.c:42-96 | registrations by a callback append to their queues |
| Timeouts.WinntTimeout.Initialize | mcfgthread/src/xglobals.c:331-365 | the converted timeout, infinite when it does not fit |
| Timeouts.WinntTimeout.Adjust | mcfgthread/src/xglobals.c:367-381 | for any clock reading, a relative timeout moves towards zero by the time that has passed and stops there if and only if the sum stays below 2^63; otherwise the exact result is given |
| Timeouts.SaturationThresholds | mcfgthread/src/xglobals.c:343-357 | the two thresholds are exactly where 64 bits end |
| Timeouts.ConversionKeepsClass | mcfgthread/src/xglobals.c:331-365 | absolute, relative, zero and infinite stay what they are |
| Timeouts.ConversionIsMonotone | mcfgthread/src/xglobals.c:343-361 | later deadlines and longer waits never convert to earlier or shorter ones |
| Timeouts.AdjustmentsAddUp | mcfgthread/src/xglobals.c:367-381 | over any number of wake-ups a relative timeout is the original plus all elapsed time, clipped at zero |
| Timeouts.WhenNoTimeIsLeft | mcfgthread/src/xglobals.c:331-381 | no time is left if and only if the timeout was zero, or relative and used up by the waits |
| CpuCollection.InsertionSorts | mcfgthread/src/cpu_collection.c:42-60 | in any order of records the result is sorted, a permutation, and stable |
| CpuCollection.Collection.Insert | mcfgthread/src/cpu_collection.c:46-59 | one record goes after the last identifier that is not greater |
| CpuCollection.Collection.OpenGap | mcfgthread/src/cpu_collection.c:46-48 | the shifting loop opens the gap at the upper bound |
| CpuCollection.Collection.Fill | mcfgthread/src/cpu_collection.c:41-64 | the collection holds the CPU of every record that describes one, once and with each field as in the record, and no other; identifiers are in order, and equal ones in the order of their records |
| CpuCollection.Collection.Find | mcfgthread/src/cpu_collection.c:162-206 | guess and binary search give an element with the identifier exactly when there is one |
| CpuCollection.Collection.SetSelection | mcfgthread/src/cpu_collection.c:270-282 | the previous state of the one element that changes, or -1 and no change |
| CpuCollection.ClearingLowestBit | mcfgthread/src/cpu_collection.c:93-103 | scanning and clearing the lowest bit takes the first position off the list |
| CpuCollection.IdsFromMask | mcfgthread/src/cpu_collection.c:88-104 | the bit loop lists exactly the set bits, counted from 256, in strictly increasing order |
| Clock.WideQuotient | mcfgthread/src/clock.c:18-19 | the result is the quotient or one more, and exact if and only if 8384 v < 2^64 (10000 - v mod 10000) |
| Clock.FirstWrongQuotient | mcfgthread/src/clock.c:18-19 | the smallest argument with a wrong result |
| Clock.WideIsMonotone | mcfgthread/src/clock.c:18-19 | time does not run backwards |
| Clock.NothingOverflows | mcfgthread/src/clock.c:23-26 | no intermediate result of the 32-bit form overflows |
| Clock.NarrowIsWide | mcfgthread/src/clock.c:23-26 | the 32-bit form equals the 128-bit form on every 64-bit number |

## Left out

- Windows calls, structured exceptions, inline assembly and load-time set-up: foreign or hardware code; the keyed event, the clock and the allocator appear as choices made outside.
- Weaker memory orders: every access takes effect at once and in one order.
- The escapes taken while the process shuts down (`RtlDllShutdownInProgress`, `__MCF_check_wait_safety`): they leave the protocol on purpose.
- Fairness: barging is allowed, and which of several sleepers a release meets is left open.
- The contents of the spin bytes: what a spinner reads is left open, so every property holds even if bytes are shared between mutexes.
- Sizes: a run has fewer threads than the sleeping count can hold, the words are those of a 64-bit target, and reference counts do not overflow.
- Progress: a retry loop that others keep disturbing may never end. What is proved of a call is proved when it ends; that it ends at all is proved only where nobody disturbs it and it need not sleep.
- TlsTable.Table.XSet: one table and one heap of keys; references by other tables and by users are counted together.
- TlsTable.Table.Drain: what destructors do to keys and other tables is left out, except for setting values of keys that somebody refers to. Each pop takes the next value after its hint; the order over a whole drain depends on where keys lie in the table, and is left open.
- TlsSlots.Origin, MutexWord.SpinBytesAreSeparate: that the multipliers spread keys and mutexes well; every property holds for any spreading.
- Finalize.Registry.Finalize: a script lists the registrations that succeed, so each has a callback and finds memory; the locks around the static queues appear only in that each pop and each registration is atomic.
- CpuCollection.Collection.Fill: the system's records are a sequence with room for all of them, there are fewer than 2^32 - 256, and allocation succeeds.
- The second loop over processor cores on systems without CPU sets (mcfgthread/src/cpu_collection.c:106-123), and the getters of single fields.
- `mcfgthread/src/event.c`: its counting repeats that of the condition variable.
- The wrappers in gthr.h, c11.h, libcxx.h, gthr_libobjc.h and cxx11.hpp, and floating-point time conversions.
