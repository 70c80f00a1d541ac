# Timer and synchronisation bookkeeping of the AREG SDK, in Dafny

This project models the sequential bookkeeping at the heart of the AREG SDK's
timer and synchronisation core, and proves what its operations promise.

- **Timer records** (`timer_info.dfy`, module `TimerRecords`). It covers the
  per-timer record `TimerInfo` and its state guards. It covers the expiration
  record `ExpiredTimerInfo`. It covers the FIFO of expirations `ExpiredTimers`,
  a class over a `seq`, and the timer table `MapTimerTable`, a class over a
  `map` keyed by the Timer's address. Removing all entries of one timer is
  specified by `Without` and `CountOf`, with lemmas on both.
- **POSIX waitable timer** (`waitable_timer_ix.dfy`, module `PosixWaitableTimer`).
  `WaitableTimerIX` is a class with the source's fields. The kernel calls
  (`timer_create`, `timer_settime`), `convTimeout` and the calling thread are
  parameters. The wake-ups it sends are logged in a ghost sequence `wakes`.
- **Win32 synchronisation objects** (`synch_objects_win32.dfy`, module
  `Win32SynchObjects`). It covers the Mutex owner, the Semaphore count clamping
  and mirroring, and the CriticalSection validity results. It covers the
  arguments `SynchTimer::setTimer` passes to `SetWaitableTimer`, and how
  `MultiLock::lock` classifies a wait result and marks its locked slots. Wait
  and release results from Windows are inputs.
- `machine.dfy` (module `Machine`) holds the fixed-width integer types and `Option`.

Notes on reading the source:

- The `ExpiredTimerInfo` constructor is declared as (timer, low, high) at
  `TimerInfo.hpp:244` but defined as (timer, high, low) at `TimerInfo.hpp:698-702`.
  The model follows the definition. `DeclaredOrderSwapsHalves` shows what a caller
  following the declaration would get.
- The bodies of `registerObject`, `updateObject`, `unregisterObject`,
  `unregisterFirstObject`, `resetActiveTimerState`, `findTimer` and
  `removeAllTimers` are in `TimerInfo.cpp`, which is not part of this model.
  They are modelled from their documented behaviour in `TimerInfo.hpp`.
- Behaviour of the code worth noting:
  - `stopTimer` on the POSIX timer leaves the timer *signaled* and keeps its OS
    timer. It wakes waiters only when the timer was unsignaled before.
  - A fire after `cancelTimer` is recognised by `mTimerId == 0`; the timer
    keeps no state of its own for it.
  - `setTimer(0, …)` resets the timer and returns false.
- The numeric values of `MultiLock::LOCK_INDEX_*` live in `SynchObjects.hpp`,
  which is not part of this model. They are the constructors of `LockIndex`. The
  Windows wait results use the Windows SDK values: `WAIT_OBJECT_0` = 0,
  `WAIT_ABANDONED_0` = 0x80, `WAIT_IO_COMPLETION` = 0xC0, `WAIT_TIMEOUT` = 0x102,
  `WAIT_FAILED` = 0xFFFFFFFF.

## Model

| member | source | states |
|---|---|---|
| TimerRecords.StateName | dev/areg/component/private/TimerInfo.hpp:676-686 | every state prints as its qualified enumerator name, prefixed `TimerInfo::` |
| TimerRecords.StateNameInjective | dev/areg/component/private/TimerInfo.hpp:676-686 | two states print alike exactly when they are the same state |
| TimerRecords.IsTimerActive | dev/areg/component/private/TimerInfo.hpp:653-656 | active exactly when the state is not Idle and the Timer reports itself active |
| TimerRecords.CanStartTimer | dev/areg/component/private/TimerInfo.hpp:658-662 | startable exactly when the state is Idle and the Timer reports it is starting; the record must have a timer |
| TimerRecords.ActiveExcludesStart | dev/areg/component/private/TimerInfo.hpp:653-662 | no record is both active and startable |
| TimerRecords.ResetActiveTimer | dev/areg/component/private/TimerInfo.hpp:664-674 | an active timer goes to Pending and true is returned; otherwise false and the record is unchanged; no other field changes |
| TimerRecords.ResetActiveTimerIdempotent | dev/areg/component/private/TimerInfo.hpp:664-674 | after a successful reset the timer is still active and a second reset yields the same record |
| TimerRecords.EmptyExpiredTimerInfo | dev/areg/component/private/TimerInfo.hpp:692-696 | the default entry has a null timer and time 0 |
| TimerRecords.NewExpiredTimerInfo | dev/areg/component/private/TimerInfo.hpp:698-702 | the entry records the timer, and its time has the second argument as high half and the third as low half |
| TimerRecords.StampRoundTrip | dev/areg/component/private/TimerInfo.hpp:698-702 | splitting a 64-bit time into (high, low) for the constructor records exactly that time |
| TimerRecords.DeclaredOrderSwapsHalves | dev/areg/component/private/TimerInfo.hpp:244 | passing distinct halves in the declared (low, high) order records a different time than meant |
| TimerRecords.SameTimer | dev/areg/component/private/TimerInfo.hpp:717-720 | two entries are equal exactly when they agree once their times are erased; identical entries are equal |
| TimerRecords.SameTimerIsEquivalence | dev/areg/component/private/TimerInfo.hpp:717-720 | entries are equal iff their timers are; times are ignored; the relation is an equivalence |
| TimerRecords.CountOf | dev/areg/component/private/TimerInfo.hpp:518-525 | the number of entries about a timer is at most the list length |
| TimerRecords.Without | dev/areg/component/private/TimerInfo.hpp:518-525 | removing a timer's entries leaves no entry about it and never lengthens the list |
| TimerRecords.WithoutCount | dev/areg/component/private/TimerInfo.hpp:518-525 | the list shrinks by exactly the number of entries about the timer |
| TimerRecords.WithoutKeepsOthers | dev/areg/component/private/TimerInfo.hpp:518-525 | every entry about another timer survives with its multiplicity; none about the removed timer remains |
| TimerRecords.WithoutNoMatch | dev/areg/component/private/TimerInfo.hpp:518-525 | a list without entries for the timer is left unchanged, with count 0 |
| TimerRecords.WithoutIdempotent | dev/areg/component/private/TimerInfo.hpp:518-525 | removing a timer's entries a second time removes nothing |
| TimerRecords.ExpiredTimers.constructor | dev/areg/component/private/TimerInfo.hpp:467-471 | a new list is empty |
| TimerRecords.ExpiredTimers.IsEmpty | dev/areg/component/private/TimerInfo.hpp:594-597 | true exactly when the list has no entries |
| TimerRecords.ExpiredTimers.GetSize | dev/areg/component/private/TimerInfo.hpp:599-602 | the number of entries |
| TimerRecords.ExpiredTimers.PushTimer | dev/areg/component/private/TimerInfo.hpp:604-607 | appends at the tail; size grows by one |
| TimerRecords.ExpiredTimers.PopTimer | dev/areg/component/private/TimerInfo.hpp:609-612 | returns and removes the head; size drops by one |
| TimerRecords.ExpiredTimers.RemoveAll | dev/areg/component/private/TimerInfo.hpp:614-617 | the list becomes empty |
| TimerRecords.ExpiredTimers.FindTimer | dev/areg/component/private/TimerInfo.hpp:507-516 | the first position about the timer at or after the start (head, or just after the given position), or none when no entry there is about it |
| TimerRecords.ExpiredTimers.RemoveAllTimers | dev/areg/component/private/TimerInfo.hpp:518-525 | the list becomes `Without` the timer, others kept in order, and the count returned is the number removed |
| TimerRecords.FifoOrder | dev/areg/component/private/TimerInfo.hpp:604-612 | two entries pushed on an empty list are popped back in the order they were pushed, and the list ends empty |
| TimerRecords.MapTimerTable.constructor | dev/areg/component/private/TimerInfo.hpp:336-339 | a new table is empty |
| TimerRecords.MapTimerTable.IsEmpty | dev/areg/component/private/TimerInfo.hpp:543-546 | true exactly when no timer is registered |
| TimerRecords.MapTimerTable.GetSize | dev/areg/component/private/TimerInfo.hpp:548-551 | the number of registered timers |
| TimerRecords.MapTimerTable.KeyExists | dev/areg/component/private/TimerInfo.hpp:553-557 | true exactly when the key is registered |
| TimerRecords.MapTimerTable.FindObject | dev/areg/component/private/TimerInfo.hpp:559-583 | yields the stored record exactly when the key is registered, which is when KeyExists is true |
| TimerRecords.MapTimerTable.RemoveAll | dev/areg/component/private/TimerInfo.hpp:585-588 | the table becomes empty |
| TimerRecords.MapTimerTable.RegisterObject | dev/areg/component/private/TimerInfo.hpp:392-396 | the key maps to the given record, replacing any earlier one; other keys unchanged |
| TimerRecords.MapTimerTable.UpdateObject | dev/areg/component/private/TimerInfo.hpp:398-408 | true and replaced iff the key was registered; an unregistered key changes nothing |
| TimerRecords.MapTimerTable.UnregisterObject | dev/areg/component/private/TimerInfo.hpp:410-426 | hands back the record iff the key was present; afterwards the key is absent and the rest unchanged |
| TimerRecords.MapTimerTable.UnregisterFirstObject | dev/areg/component/private/TimerInfo.hpp:428-437 | none iff the table was empty; otherwise one registered key and its record, removed from the table |
| TimerRecords.MapTimerTable.ResetActiveTimerState | dev/areg/component/private/TimerInfo.hpp:439-444 | true iff the key is registered and its timer active, and then only its state becomes Pending; otherwise nothing changes |
| PosixWaitableTimer.WaitableTimerIX.constructor | dev/areg/base/private/posix/WaitableTimerIX.cpp:35-47 | no OS timer, timeout 0, fire count 0, no thread, signaled as requested, reset kind as requested |
| PosixWaitableTimer.WaitableTimerIX.StopTimerState | dev/areg/base/private/posix/WaitableTimerIX.cpp:185-199 | clears timeout, fire count and thread, zeroes the due time only for a running OS timer, keeps the OS timer |
| PosixWaitableTimer.WaitableTimerIX.ResetTimerState | dev/areg/base/private/posix/WaitableTimerIX.cpp:173-183 | as StopTimerState and also drops the OS timer; signaled state untouched |
| PosixWaitableTimer.WaitableTimerIX.SetTimer | dev/areg/base/private/posix/WaitableTimerIX.cpp:54-95 | succeeds iff the timeout is non-zero and creation and arming succeed; then records timeout, OS timer, thread and due time, unsignaled; on failure the timer is reset and invalid, and unsignaled if the OS timer had been created |
| PosixWaitableTimer.WaitableTimerIX.StopTimer | dev/areg/base/private/posix/WaitableTimerIX.cpp:97-116 | always true; signaled, timeout 0, fire count 0, OS timer kept; one wake-up iff it was unsignaled |
| PosixWaitableTimer.WaitableTimerIX.CancelTimer | dev/areg/base/private/posix/WaitableTimerIX.cpp:120-139 | as StopTimer but the OS timer is dropped, so the timer is invalid |
| PosixWaitableTimer.WaitableTimerIX.CheckSignaled | dev/areg/base/private/posix/WaitableTimerIX.cpp:141-145 | the signaled flag |
| PosixWaitableTimer.WaitableTimerIX.IsValid | dev/areg/base/private/posix/WaitableTimerIX.cpp:147-151 | true exactly when the timer holds an OS timer |
| PosixWaitableTimer.WaitableTimerIX.NotifyRequestOwnership | dev/areg/base/private/posix/WaitableTimerIX.cpp:153-156 | ownership is always granted |
| PosixWaitableTimer.WaitableTimerIX.CheckCanSignalMultipleThreads | dev/areg/base/private/posix/WaitableTimerIX.cpp:158-161 | a timer may release several threads |
| PosixWaitableTimer.WaitableTimerIX.NotifyReleasedThreads | dev/areg/base/private/posix/WaitableTimerIX.cpp:163-171 | an auto-reset timer becomes unsignaled, a manual-reset one keeps its state; nothing else changes, and the timer invariant is kept |
| PosixWaitableTimer.WaitableTimerIX.TimerExpired | dev/areg/base/private/posix/WaitableTimerIX.cpp:201-238 | with an OS timer: fire count +1, signaled, new due time, a wake-up and, if the owner has a waiter, an asynchronous notification; without one nothing changes |
| PosixWaitableTimer.SetTimerZeroIsInvalid | dev/areg/base/private/posix/WaitableTimerIX.cpp:54-60 | setTimer with timeout 0 fails and isValid then reports false; the timer holds no OS timer |
| PosixWaitableTimer.CancelThenFire | dev/areg/base/private/posix/WaitableTimerIX.cpp:201-226 | a fire after cancelTimer leaves the timer signaled, unfired and invalid, with no extra wake-up |
| PosixWaitableTimer.StopTwice | dev/areg/base/private/posix/WaitableTimerIX.cpp:97-116 | two stops wake waiters at most once |
| Machine.AsInt32 | framework/areg/base/private/win32/SynchObjectsWin32.cpp:408 | the LONG cast keeps values below 2^31 and turns larger ones negative, congruent modulo 2^32 |
| Win32SynchObjects.MutexKeepsHandleAsWritten | framework/areg/base/private/win32/SynchObjectsWin32.cpp:49-61 | as written, the handle is kept only for a mutex created locked |
| Win32SynchObjects.MutexKeepsHandle | framework/areg/base/private/win32/SynchObjectsWin32.cpp:49-61 | corrected: the handle is kept whenever it was created |
| Win32SynchObjects.UnlockedMutexNeverLocks | framework/areg/base/private/win32/SynchObjectsWin32.cpp:49-78 | as written, a mutex created unlocked can never be locked; with the handle kept it can |
| Win32SynchObjects.Mutex.constructor | framework/areg/base/private/win32/SynchObjectsWin32.cpp:49-61 | corrected (see ## Findings): keeps the created handle whenever `CreateMutex` succeeded; a mutex created locked is owned by the calling thread when the wait is granted |
| Win32SynchObjects.Mutex.LockMutex | framework/areg/base/private/win32/SynchObjectsWin32.cpp:67-78 | true iff there is a handle and the wait returned WAIT_OBJECT_0; then the caller is the owner, otherwise the owner is unchanged |
| Win32SynchObjects.Mutex.UnlockMutex | framework/areg/base/private/win32/SynchObjectsWin32.cpp:80-90 | true iff there is a handle and the release succeeded; then the owner is 0, otherwise unchanged |
| Win32SynchObjects.SemaphoreMaxCount | framework/areg/base/private/win32/SynchObjectsWin32.cpp:157 | the maximum is the requested one when at least 1, else 1 |
| Win32SynchObjects.SemaphoreInitCount | framework/areg/base/private/win32/SynchObjectsWin32.cpp:158 | the initial count is kept when in [0, max], else 0 |
| Win32SynchObjects.SemaphoreStartsInRange | framework/areg/base/private/win32/SynchObjectsWin32.cpp:154-162 | any arguments give a starting count within [0, max] |
| Win32SynchObjects.Semaphore.constructor | framework/areg/base/private/win32/SynchObjectsWin32.cpp:154-162 | maximum and count as clamped; the count invariant holds |
| Win32SynchObjects.Semaphore.Lock | framework/areg/base/private/win32/SynchObjectsWin32.cpp:171-182 | true iff the wait returned WAIT_OBJECT_0, and then the count drops by one, else unchanged; the count stays in [0, max] |
| Win32SynchObjects.Semaphore.Unlock | framework/areg/base/private/win32/SynchObjectsWin32.cpp:184-195 | true iff the release succeeded, and then the count rises by one, else unchanged; at the maximum it fails; the count stays in [0, max] |
| Win32SynchObjects.CriticalSection.constructor | framework/areg/base/private/win32/SynchObjectsWin32.cpp:204-214 | the object exists iff its memory could be allocated |
| Win32SynchObjects.CriticalSection.Lock | framework/areg/base/private/win32/SynchObjectsWin32.cpp:230-238 | true exactly when the critical section exists |
| Win32SynchObjects.CriticalSection.Unlock | framework/areg/base/private/win32/SynchObjectsWin32.cpp:240-248 | true exactly when the critical section exists |
| Win32SynchObjects.CriticalSection.TryLock | framework/areg/base/private/win32/SynchObjectsWin32.cpp:250-253 | true exactly when it exists and the try-enter succeeded |
| Win32SynchObjects.SetTimerArgs | framework/areg/base/private/win32/SynchObjectsWin32.cpp:402-410 | the due time is relative (non-positive), zero only for 0 ms, a whole number of milliseconds in 100-ns units; the period is 0 unless periodic, else the milliseconds as a LONG |
| Win32SynchObjects.SetTimerDueRoundTrip | framework/areg/base/private/win32/SynchObjectsWin32.cpp:402-410 | the due time converts back to exactly the timer's milliseconds |
| Win32SynchObjects.RawWaitResult | framework/areg/base/private/win32/SynchObjectsWin32.cpp:434 | an empty set yields WAIT_FAILED without waiting; otherwise the OS result |
| Win32SynchObjects.WaitOutcome | framework/areg/base/private/win32/SynchObjectsWin32.cpp:432-462 | an index iff waiting for any and the result is below the count, and then the index is the result; ALL iff waiting for all and the result is below the count; COMPLETION iff WAIT_IO_COMPLETION; TIMEOUT iff WAIT_TIMEOUT; INVALID for everything else |
| Win32SynchObjects.EmptyMultiLockIsInvalid | framework/areg/base/private/win32/SynchObjectsWin32.cpp:432-435 | an empty MultiLock returns INVALID whatever the OS would say |
| Win32SynchObjects.AbandonedIsInvalid | framework/areg/base/private/win32/SynchObjectsWin32.cpp:435-462 | an abandoned object is reported as INVALID, not as an index |
| Win32SynchObjects.MultiLock.constructor | framework/areg/base/private/win32/SynchObjectsWin32.cpp:424-433 | stands for the MultiLock construction, which is not in SynchObjectsWin32.cpp: the object holds its locked-state slots and a count of at most `MAXIMUM_WAITING_OBJECTS` objects, the fields `lock` reads |
| Win32SynchObjects.MultiLock.Lock | framework/areg/base/private/win32/SynchObjectsWin32.cpp:424-463 | returns WaitOutcome of the wait; marks only the acquired slot (any) or every slot (all) locked; any other outcome leaves the states unchanged |

## Findings

| source | as written | input that shows it | evidently intended | confidence | as-written member | corrected member |
|---|---|---|---|---|---|---|
| framework/areg/base/private/win32/SynchObjectsWin32.cpp:55-60 | the handle from `CreateMutex` is stored in `mSynchObject` only inside `if (lock && synchObj != nullptr)` | `Mutex(false)` with `CreateMutex` succeeding: the handle is dropped, and every later `_lockMutex` / `_unlockMutex` returns false | store the handle whenever `CreateMutex` succeeds, and lock only when `lock` is true | likely, if the base class starts `mSynchObject` as null; not executed | Win32SynchObjects.MutexKeepsHandleAsWritten, Win32SynchObjects.UnlockedMutexNeverLocks | Win32SynchObjects.MutexKeepsHandle |

## Left out

- The object locks (`ObjectLockIX`), atomics and concurrency in general: each operation is one sequential step. The actual blocking and waking of threads is out of scope. The POSIX timer only logs its wake-ups.
- The hash function of the timer table (`TimerTableImpl`, `MACRO_PTR2INT32`): the Dafny `map` is keyed by the Timer's address directly.
- `TimerInfo` constructors, copy and assignment, `operator ==`, `isTimerExpired` and `isTimerStarting`: their bodies are in `TimerInfo.cpp`, which is not part of this model. The record is a value with its six fields. The getters at `TimerInfo.hpp:623-651` are the datatype's field selectors.
- `Timer::isActive` and `Timer::timerIsStarting` are boolean parameters, not modelled behaviour.
- TimerRecords.MapTimerTable.UnregisterFirstObject: which entry is "first" depends on the hash-bucket order, which is not modelled. The model removes some registered entry.
- TimerRecords.MapTimerTable.FindObject: returns a copy of the stored record. The pointer overload of `findObject` hands out an alias into the table through which callers may change the stored record; in the model the stored record changes in place only through `UpdateObject` and `ResetActiveTimerState`.
- TimerRecords.StateName: the default branch of `getString`, which names an undefined state value, cannot be reached: `TimerState` has exactly the four states.
- TimerRecords.ExpiredTimers.FindTimer: list positions (`LISTPOS` node pointers) are indices from the head.
- TimerRecords.ExpiredTimers.PopTimer: requires a non-empty list. The underlying `TELinkedList::removeFirst` asserts non-emptiness; that file is not part of this model.
- The periodic reload interval of the POSIX timer lives only in the kernel's `itimerspec`. `isPeriodic` is accepted but does not change the model's state.
- `timer_delete`, the cancelling `timer_settime`, `_posixTimerRoutine` and the destructor of `WaitableTimerIX`: kernel calls without results the timer uses.
- PosixWaitableTimer.WaitableTimerIX.SetTimer: a failed `timer_create` is taken to leave `mTimerId` at 0.
- `NESynchTypesIX::convTimeout` reads the clock. Its result is the `due` / `nextDue` parameter.
- The width of `mFiredCount` is declared in `WaitableTimerIX.hpp`, which is not part of this model. The count is unbounded.
- `SynchEvent`, `SpinLock`, `ResourceLock`, `IESynchObject::_destroySynchObject`, and the `SynchTimer` constructor, `lock`, `unlock` and `cancelTimer`. Each only forwards to a Windows call or to another lock, with no bookkeeping of its own.
- The gathering of handles at the start of `MultiLock::lock`, and its `timeout` and `isAlertable` arguments: these only reach Windows.
- Win32SynchObjects.Mutex.constructor: the class follows the corrected constructor of the Findings row, which keeps the handle whenever `CreateMutex` succeeded; the constructor as written, which drops the handle of a mutex created unlocked, is carried by `MutexKeepsHandleAsWritten` and `UnlockedMutexNeverLocks`. For a mutex created locked, the kernel's recursion count is not modelled. `CreateMutex` with initial ownership followed by a second wait leaves that count at two.
- Win32SynchObjects.Semaphore.Lock and Win32SynchObjects.Semaphore.Unlock: the preconditions on the Windows result state the kernel's semaphore rule. A wait is granted only at a positive count, and a release is refused at the maximum. The model assumes the mirrored count equals the kernel's, which concurrent callers can break for a moment.
