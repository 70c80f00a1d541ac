/**
  The deterministic bookkeeping of the Win32 synchronisation objects: the owner a
  Mutex records, the count a Semaphore mirrors, the validity results of a
  CriticalSection, the arguments SynchTimer hands to `SetWaitableTimer`, and how
  MultiLock turns the result of `WaitForMultipleObjectsEx` into an index and
  marks the objects it locked.

  The Windows calls are parameters: the raw result of a wait function, whether
  `ReleaseMutex` / `ReleaseSemaphore` succeeded, whether an object was created.
  `hasHandle` stands for `mSynchObject != nullptr`.
*/
module Win32SynchObjects {
  import opened Machine

  // Results of the Windows wait functions (winbase.h).
  const WaitObject0: uint32 := 0                 // WAIT_OBJECT_0
  const WaitAbandoned0: uint32 := 0x80           // WAIT_ABANDONED_0
  const WaitIoCompletion: uint32 := 0xC0         // WAIT_IO_COMPLETION
  const WaitTimeout: uint32 := 0x102             // WAIT_TIMEOUT
  const WaitFailed: uint32 := 0xFFFF_FFFF        // WAIT_FAILED

  /** `NECommon::WAIT_INFINITE`, the Windows INFINITE timeout. */
  const WaitInfinite: uint32 := 0xFFFF_FFFF

  /** The most objects one wait may name (Windows MAXIMUM_WAIT_OBJECTS). */
  const MaximumWaitingObjects: nat := 64

  // ---------------------------------------------------------------------------
  // Mutex
  // ---------------------------------------------------------------------------

  /** Whether `_lockMutex` acquires: the Mutex has a handle and the wait returned
      WAIT_OBJECT_0 (an abandoned mutex counts as a failure). */
  predicate MutexLockGranted(hasHandle: bool, waitResult: uint32)
  {
    hasHandle && waitResult == WaitObject0
  }

  /** Whether the Mutex constructor, as written, keeps the handle `CreateMutex`
      returned: it stores the handle only inside the branch taken for an
      initially locked mutex. */
  function MutexKeepsHandleAsWritten(lock: bool, created: bool): (kept: bool)
    ensures kept ==> lock
    ensures kept <==> lock && created
  {
    lock && created
  }

  /** Whether the Mutex constructor keeps the handle, as intended: whenever
      `CreateMutex` succeeded, locked or not. */
  function MutexKeepsHandle(lock: bool, created: bool): (kept: bool)
    ensures kept <==> created
    ensures MutexKeepsHandleAsWritten(lock, created) ==> kept
  {
    created
  }

  /** A mutex constructed unlocked, as written, loses its handle, so no later
      `_lockMutex` can succeed whatever Windows answers; with the handle kept
      the same wait acquires it. */
  lemma UnlockedMutexNeverLocks(waitResult: uint32)
    ensures !MutexLockGranted(MutexKeepsHandleAsWritten(false, true), waitResult)
    ensures MutexLockGranted(MutexKeepsHandle(false, true), WaitObject0)
  {
  }

  class Mutex {
    var hasHandle: bool
    var ownerThreadId: nat   // mOwnerThreadId, 0 when nobody owns it

    /** `Mutex(lock)`: creates the OS mutex (`created`) and, when asked to start
        locked, takes it for the calling thread (the wait result `waitResult`).
        Keeps the handle in both cases (see MutexKeepsHandle). */
    constructor (lock: bool, created: bool, currentThread: nat, waitResult: uint32)
      ensures hasHandle == MutexKeepsHandle(lock, created)
      ensures ownerThreadId == if lock && MutexLockGranted(hasHandle, waitResult) then currentThread else 0
    {
      hasHandle := MutexKeepsHandle(lock, created);
      ownerThreadId := 0;
      new;
      if lock && hasHandle {
        var _ := LockMutex(WaitInfinite, waitResult, currentThread);
      }
    }

    /** `_lockMutex`: on a granted wait the calling thread becomes the owner. */
    method LockMutex(timeout: uint32, waitResult: uint32, currentThread: nat) returns (ok: bool)
      modifies this
      ensures ok <==> MutexLockGranted(hasHandle, waitResult)
      ensures ownerThreadId == if ok then currentThread else old(ownerThreadId)
      ensures hasHandle == old(hasHandle)
    {
      ok := false;
      if hasHandle && waitResult == WaitObject0 {
        ownerThreadId := currentThread;
        ok := true;
      }
    }

    /** `_unlockMutex`: when `ReleaseMutex` succeeds nobody owns the mutex. */
    method UnlockMutex(released: bool) returns (ok: bool)
      modifies this
      ensures ok <==> hasHandle && released
      ensures ownerThreadId == if ok then 0 else old(ownerThreadId)
      ensures hasHandle == old(hasHandle)
    {
      ok := false;
      if hasHandle && released {
        ownerThreadId := 0;
        ok := true;
      }
    }
  }

  // ---------------------------------------------------------------------------
  // Semaphore
  // ---------------------------------------------------------------------------

  /** `MACRO_MAX(maxCount, 1)`: the maximum count is at least one. */
  function SemaphoreMaxCount(maxCount: int32): (m: int32)
    ensures m >= 1 && m >= maxCount
    ensures maxCount >= 1 ==> m == maxCount
    ensures maxCount < 1 ==> m == 1
  {
    if maxCount > 1 then maxCount else 1
  }

  /** `MACRO_IN_RANGE(initCount, 0, maxCount) ? initCount : 0`. */
  function SemaphoreInitCount(initCount: int32, maxCount: int32): (c: int32)
    ensures 0 <= initCount <= maxCount ==> c == initCount
    ensures !(0 <= initCount <= maxCount) ==> c == 0
  {
    if 0 <= initCount <= maxCount then initCount else 0
  }

  /** Whatever the arguments, a constructed semaphore starts with a count in range. */
  lemma SemaphoreStartsInRange(maxCount: int32, initCount: int32)
    ensures 0 <= SemaphoreInitCount(initCount, SemaphoreMaxCount(maxCount)) <= SemaphoreMaxCount(maxCount)
  {
  }

  class Semaphore {
    const maxCount: int      // mMaxCount
    var currCount: int       // mCurrCount, mirrors the kernel's count
    const hasHandle: bool

    ghost predicate Valid()
      reads this
    {
      1 <= maxCount && 0 <= currCount <= maxCount
    }

    /** `Semaphore(maxCount, initCount)`; `created` is whether `CreateSemaphore` succeeded. */
    constructor (maxCount: int32, initCount: int32, created: bool)
      ensures Valid()
      ensures this.maxCount == SemaphoreMaxCount(maxCount)
      ensures currCount == SemaphoreInitCount(initCount, this.maxCount)
      ensures hasHandle == created
    {
      var m := SemaphoreMaxCount(maxCount);
      this.maxCount := m;
      currCount := SemaphoreInitCount(initCount, m);
      hasHandle := created;
    }

    /** `lock`: the count drops by one exactly when the wait returned
        WAIT_OBJECT_0. Windows grants a semaphore wait only while its count is
        positive, which the second precondition states. */
    method Lock(timeout: uint32, waitResult: uint32) returns (ok: bool)
      requires Valid() && hasHandle
      requires waitResult == WaitObject0 ==> currCount > 0
      modifies this
      ensures Valid()
      ensures ok <==> waitResult == WaitObject0
      ensures currCount == if ok then old(currCount) - 1 else old(currCount)
    {
      ok := false;
      if waitResult == WaitObject0 {
        currCount := currCount - 1;
        ok := true;
      }
    }

    /** `unlock`: the count rises by one exactly when `ReleaseSemaphore`
        succeeded. Windows refuses a release that would pass the maximum, which
        the second precondition states; so a release at the maximum fails. */
    method Unlock(released: bool) returns (ok: bool)
      requires Valid() && hasHandle
      requires released ==> currCount < maxCount
      modifies this
      ensures Valid()
      ensures ok <==> released
      ensures currCount == if ok then old(currCount) + 1 else old(currCount)
      ensures old(currCount) == maxCount ==> !ok && currCount == old(currCount)
    {
      ok := false;
      if released {
        currCount := currCount + 1;
        ok := true;
      }
    }
  }

  // ---------------------------------------------------------------------------
  // CriticalSection
  // ---------------------------------------------------------------------------

  /** The results of CriticalSection: every operation reports whether the
      critical section object exists. */
  class CriticalSection {
    const hasHandle: bool

    /** `memoryOk` is whether the critical section could be allocated. */
    constructor (memoryOk: bool)
      ensures hasHandle == memoryOk
    {
      hasHandle := memoryOk;
    }

    /** `lock`: enters the critical section when it exists, and says whether it does. */
    method Lock(timeout: uint32) returns (ok: bool)
      ensures ok <==> hasHandle
    {
      ok := hasHandle;
    }

    /** `unlock`: leaves the critical section when it exists, and says whether it does. */
    method Unlock() returns (ok: bool)
      ensures ok <==> hasHandle
    {
      ok := hasHandle;
    }

    /** `tryLock`: true when the section exists and `TryEnterCriticalSection` entered it. */
    method TryLock(entered: bool) returns (ok: bool)
      ensures ok <==> hasHandle && entered
    {
      ok := hasHandle && entered;
    }
  }

  // ---------------------------------------------------------------------------
  // SynchTimer
  // ---------------------------------------------------------------------------

  /** `NANOSECONDS_KOEF_100`: 100-ns intervals in a millisecond. */
  const HundredNsPerMs: int := 10_000

  /** The due time and period `SynchTimer::setTimer` passes to `SetWaitableTimer`. */
  datatype WaitableTimerArgs = WaitableTimerArgs(dueTime: int64, period: int32)

  /** `SynchTimer::setTimer`'s arithmetic: a due time relative to now (negative,
      in 100-ns units) of `timeMilliseconds`, and a period of `timeMilliseconds`
      cast to LONG for a periodic timer, else 0. */
  function SetTimerArgs(timeMilliseconds: uint32, isPeriodic: bool): (args: WaitableTimerArgs)
    ensures args.dueTime <= 0
    ensures args.dueTime == 0 <==> timeMilliseconds == 0
    ensures args.dueTime % HundredNsPerMs == 0
    ensures !isPeriodic ==> args.period == 0
    ensures isPeriodic && timeMilliseconds < 0x8000_0000 ==> args.period == timeMilliseconds
    ensures isPeriodic && timeMilliseconds >= 0x8000_0000 ==> args.period < 0
  {
    WaitableTimerArgs(-1 * timeMilliseconds * HundredNsPerMs,
                      if isPeriodic then AsInt32(timeMilliseconds) else 0)
  }

  /** The due time converts back to the timer's milliseconds. */
  lemma SetTimerDueRoundTrip(timeMilliseconds: uint32, isPeriodic: bool)
    ensures -SetTimerArgs(timeMilliseconds, isPeriodic).dueTime / HundredNsPerMs == timeMilliseconds
  {
  }

  // ---------------------------------------------------------------------------
  // MultiLock
  // ---------------------------------------------------------------------------

  /** `MultiLock::eLockedState`. */
  datatype LockedState = StateUnlocked | StateLocked

  /** What `MultiLock::lock` returns: the index of the one object acquired, or one
      of the constants LOCK_INDEX_ALL, LOCK_INDEX_COMPLETION, LOCK_INDEX_TIMEOUT,
      LOCK_INDEX_INVALID. */
  datatype LockIndex =
    | LockedAt(index: nat)
    | LockIndexAll
    | LockIndexCompletion
    | LockIndexTimeout
    | LockIndexInvalid

  /** The raw result of the wait: what `WaitForMultipleObjectsEx` returned
      (`osResult`) when there is something to wait on, WAIT_FAILED otherwise. */
  function RawWaitResult(sizeCount: nat, osResult: uint32): (result: uint32)
    ensures sizeCount == 0 ==> result == WaitFailed
    ensures sizeCount > 0 ==> result == osResult
  {
    if sizeCount > 0 then osResult else WaitFailed
  }

  /** How `MultiLock::lock` maps a raw wait result over `sizeCount` objects to the
      index it returns. */
  function WaitOutcome(result: uint32, sizeCount: nat, waitForAll: bool): (idx: LockIndex)
    requires sizeCount <= MaximumWaitingObjects
    ensures idx.LockedAt? <==> !waitForAll && result < sizeCount
    ensures idx.LockedAt? ==> idx.index == result
    ensures idx == LockIndexAll <==> waitForAll && result < sizeCount
    ensures idx == LockIndexCompletion <==> result == WaitIoCompletion
    ensures idx == LockIndexTimeout <==> result == WaitTimeout
    ensures idx == LockIndexInvalid <==>
              sizeCount <= result && result != WaitIoCompletion && result != WaitTimeout
  {
    var maxEvent := WaitObject0 + sizeCount;
    if result < maxEvent then
      (if !waitForAll then LockedAt(result - WaitObject0) else LockIndexAll)
    else if result == WaitIoCompletion then LockIndexCompletion
    else if result == WaitTimeout then LockIndexTimeout
    else LockIndexInvalid
  }

  /** An empty MultiLock never locks anything. */
  lemma EmptyMultiLockIsInvalid(osResult: uint32, waitForAll: bool)
    ensures WaitOutcome(RawWaitResult(0, osResult), 0, waitForAll) == LockIndexInvalid
  {
  }

  /** An abandoned object is reported as invalid, not as an index. */
  lemma AbandonedIsInvalid(sizeCount: nat, k: nat, waitForAll: bool)
    requires 0 < sizeCount <= MaximumWaitingObjects && k < sizeCount
    ensures WaitOutcome(RawWaitResult(sizeCount, WaitAbandoned0 + k), sizeCount, waitForAll) == LockIndexInvalid
  {
  }

  /** Whether slot `k` of `sizeCount` becomes locked when `lock` returns `idx`. */
  predicate MarkedBy(idx: LockIndex, sizeCount: nat, k: nat)
  {
    (idx.LockedAt? && idx.index == k) || (idx.LockIndexAll? && k < sizeCount)
  }

  class MultiLock {
    const lockedStates: array<LockedState>   // mLockedStates
    const sizeCount: nat                      // mSizeCount

    ghost predicate Valid()
      reads this
    {
      sizeCount <= lockedStates.Length && sizeCount <= MaximumWaitingObjects
    }

    constructor (states: array<LockedState>, count: nat)
      requires count <= states.Length && count <= MaximumWaitingObjects
      ensures Valid() && lockedStates == states && sizeCount == count
    {
      lockedStates := states;
      sizeCount := count;
    }

    /** `MultiLock::lock`: waits on the objects (`osResult` is what the wait
        returned) and returns WaitOutcome of it. In wait-for-any mode the one
        object acquired is marked locked; in wait-for-all mode every object is;
        any other outcome leaves the states as they were. */
    method Lock(timeout: uint32, waitForAll: bool, isAlertable: bool, osResult: uint32) returns (index: LockIndex)
      requires Valid()
      modifies lockedStates
      ensures index == WaitOutcome(RawWaitResult(sizeCount, osResult), sizeCount, waitForAll)
      ensures forall k :: 0 <= k < lockedStates.Length ==>
                lockedStates[k] == if MarkedBy(index, sizeCount, k) then StateLocked else old(lockedStates[k])
    {
      index := LockIndexInvalid;
      var maxEvent := WaitObject0 + sizeCount;
      var result := RawWaitResult(sizeCount, osResult);
      if result < maxEvent {
        if !waitForAll {
          index := LockedAt(result - WaitObject0);
          lockedStates[result - WaitObject0] := StateLocked;
        } else {
          var i := 0;
          while i < sizeCount
            invariant 0 <= i <= sizeCount
            invariant forall k :: 0 <= k < lockedStates.Length ==>
                        lockedStates[k] == if k < i then StateLocked else old(lockedStates[k])
          {
            lockedStates[i] := StateLocked;
            i := i + 1;
          }
          index := LockIndexAll;
        }
      } else if result == WaitIoCompletion {
        index := LockIndexCompletion;
      } else if result == WaitTimeout {
        index := LockIndexTimeout;
      }
    }
  }
}
