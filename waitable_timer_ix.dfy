/**
  The POSIX waitable timer: a waitable object that becomes signaled when its OS
  timer fires, on an auto-reset or a manual-reset basis.

  The kernel calls are parameters of the operations: whether `timer_create`
  succeeded and which id it gave, whether `timer_settime` accepted the interval,
  the interval `NESynchTypesIX::convTimeout` computed, and the calling thread.
  The object lock only serialises the operations, so each operation is one step.
  The wake-ups the timer causes (`SynchLockAndWaitIX::eventSignaled` and, after a
  fire, `_notifyAsynchSignal` on the owning thread's waiter) are recorded in a
  ghost log.
*/
module PosixWaitableTimer {
  import opened Machine

  /** `NESynchTypesIX::eEventResetInfo`. */
  datatype ResetInfo = EventResetAutomatic | EventResetManual

  /** A `struct timespec`. */
  datatype TimeSpec = TimeSpec(sec: nat, nsec: nat)

  const ZeroTime: TimeSpec := TimeSpec(0, 0)

  /** The null `timer_t`: no OS timer. */
  const NoTimer: nat := 0

  /** `Thread::INVALID_THREAD_ID`. */
  const InvalidThreadId: nat := 0

  /** A wake-up sent on behalf of the timer. */
  datatype Wake =
    | EventSignaled              // SynchLockAndWaitIX::eventSignaled(*this)
    | AsynchSignal(thread: nat)  // _notifyAsynchSignal() on that thread's waiter

  /** The signal log after a state change that wakes waiters exactly when the timer
      was unsignaled before. */
  function WakeIfWasUnsignaled(log: seq<Wake>, wasSignaled: bool): (r: seq<Wake>)
    ensures wasSignaled ==> r == log
    ensures !wasSignaled ==> r == log + [EventSignaled]
  {
    if wasSignaled then log else log + [EventSignaled]
  }

  class WaitableTimerIX {
    const resetInfo: ResetInfo   // mResetInfo
    var timerId: nat             // mTimerId
    var timeout: uint32          // mTimeout, in milliseconds
    var isSignaled: bool         // mIsSignaled
    var firedCount: nat          // mFiredCount
    var dueTime: TimeSpec        // mDueTime
    var threadId: nat            // mThreadId

    /** Every wake-up sent so far, oldest first. */
    ghost var wakes: seq<Wake>

    /** A timer that has fired holds an OS timer: fires are counted only then, and
        every operation that drops the OS timer also clears the count. */
    ghost predicate Valid()
      reads this
    {
      firedCount > 0 ==> timerId != NoTimer
    }

    constructor (isAutoReset: bool, isSignaled: bool)
      ensures Valid()
      ensures resetInfo == (if isAutoReset then EventResetAutomatic else EventResetManual)
      ensures timerId == NoTimer && timeout == 0 && firedCount == 0
      ensures this.isSignaled == isSignaled
      ensures dueTime == ZeroTime && threadId == InvalidThreadId
      ensures wakes == []
    {
      resetInfo := if isAutoReset then EventResetAutomatic else EventResetManual;
      timerId := NoTimer;
      timeout := 0;
      this.isSignaled := isSignaled;
      firedCount := 0;
      dueTime := ZeroTime;
      threadId := InvalidThreadId;
      wakes := [];
    }

    /** `_stopTimer`: disarms a running OS timer (the zero `timer_settime`) and
        clears timeout, fire count and thread; keeps the OS timer itself. */
    method StopTimerState()
      modifies this
      ensures timerId == old(timerId) && isSignaled == old(isSignaled)
      ensures timeout == 0 && firedCount == 0 && threadId == 0
      ensures dueTime == if old(timerId) != NoTimer && old(timeout) != 0 then ZeroTime else old(dueTime)
      ensures wakes == old(wakes)
    {
      if timerId != NoTimer && timeout != 0 {
        dueTime := ZeroTime;
      }
      timeout := 0;
      firedCount := 0;
      threadId := 0;
    }

    /** `_resetTimer`: `_stopTimer`, then deletes the OS timer. */
    method ResetTimerState()
      modifies this
      ensures Valid()
      ensures isSignaled == old(isSignaled)
      ensures timerId == NoTimer && timeout == 0 && firedCount == 0 && threadId == 0
      ensures dueTime == if old(timerId) != NoTimer && old(timeout) != 0 then ZeroTime else old(dueTime)
      ensures wakes == old(wakes)
    {
      StopTimerState();
      timerId := NoTimer;
      threadId := 0;
    }

    /** `setTimer`: drops any previous OS timer; a zero timeout stops there and
        fails. Otherwise a new OS timer is created (`created`, id `osTimerId`) and
        armed with the interval `due` (`armed`): then the timer is running,
        unsignaled, and the call succeeds. A failed arming drops the new OS timer
        again and leaves the timer unsignaled. `isPeriodic` only shapes the
        kernel's reload interval. */
    method SetTimer(msTimeout: uint32, isPeriodic: bool,
                    created: bool, osTimerId: nat, due: TimeSpec, armed: bool, currentThread: nat)
      returns (ok: bool)
      modifies this
      ensures Valid()
      ensures ok <==> msTimeout != 0 && created && armed
      ensures ok ==> timerId == osTimerId && timeout == msTimeout && !isSignaled
                     && firedCount == 0 && threadId == currentThread && dueTime == due
      ensures !ok ==> timerId == NoTimer && timeout == 0 && firedCount == 0 && threadId == 0
      ensures !ok && msTimeout != 0 && created ==>
                !isSignaled && dueTime == (if osTimerId != NoTimer then ZeroTime else due)
      ensures !(msTimeout != 0 && created) ==>
                isSignaled == old(isSignaled)
                && dueTime == (if old(timerId) != NoTimer && old(timeout) != 0 then ZeroTime else old(dueTime))
      ensures wakes == old(wakes)
    {
      ok := false;
      ResetTimerState();
      if msTimeout != 0 {
        if created {
          timerId := osTimerId;
          dueTime := due;
          timeout := msTimeout;
          isSignaled := false;
          threadId := currentThread;
          ok := true;
          if !armed {
            ok := false;
            ResetTimerState();
          }
        }
      }
    }

    /** `stopTimer`: disarms the timer, keeps its OS timer, and leaves it signaled;
        waiters are woken only when it was unsignaled before. Always true. */
    method StopTimer() returns (ok: bool)
      modifies this
      ensures Valid()
      ensures ok
      ensures isSignaled && timeout == 0 && firedCount == 0 && threadId == 0
      ensures timerId == old(timerId)
      ensures dueTime == if old(timerId) != NoTimer && old(timeout) != 0 then ZeroTime else old(dueTime)
      ensures wakes == WakeIfWasUnsignaled(old(wakes), old(isSignaled))
    {
      var sendSignal := !isSignaled;
      StopTimerState();
      isSignaled := true;
      if sendSignal {
        wakes := wakes + [EventSignaled];
      }
      ok := true;
    }

    /** `cancelTimer`: like `stopTimer`, but also deletes the OS timer, so the
        timer is no longer valid. Always true. */
    method CancelTimer() returns (ok: bool)
      modifies this
      ensures Valid()
      ensures ok
      ensures isSignaled && timeout == 0 && firedCount == 0 && threadId == 0
      ensures timerId == NoTimer
      ensures dueTime == if old(timerId) != NoTimer && old(timeout) != 0 then ZeroTime else old(dueTime)
      ensures wakes == WakeIfWasUnsignaled(old(wakes), old(isSignaled))
    {
      var sendSignal := !isSignaled;
      ResetTimerState();
      isSignaled := true;
      if sendSignal {
        wakes := wakes + [EventSignaled];
      }
      ok := true;
    }

    /** `checkSignaled`. */
    method CheckSignaled() returns (signaled: bool)
      ensures signaled == isSignaled
    {
      signaled := isSignaled;
    }

    /** `isValid`: the timer holds an OS timer. */
    method IsValid() returns (valid: bool)
      ensures valid <==> timerId != NoTimer
    {
      valid := timerId != NoTimer;
    }

    /** `notifyRequestOwnership`: any thread may own a timer. */
    method NotifyRequestOwnership(ownerThread: nat) returns (granted: bool)
      ensures granted
    {
      granted := true;
    }

    /** `checkCanSignalMultipleThreads`: one fire may release several waiters. */
    method CheckCanSignalMultipleThreads() returns (multiple: bool)
      ensures multiple
    {
      multiple := true;
    }

    /** `notifyReleasedThreads`: once waiters are released, an auto-reset timer
        returns to unsignaled; a manual-reset one stays as it is. */
    method NotifyReleasedThreads(numThreads: int)
      requires Valid()
      modifies this
      ensures Valid()
      ensures resetInfo == EventResetAutomatic ==> !isSignaled
      ensures resetInfo == EventResetManual ==> isSignaled == old(isSignaled)
      ensures timerId == old(timerId) && timeout == old(timeout) && firedCount == old(firedCount)
      ensures dueTime == old(dueTime) && threadId == old(threadId) && wakes == old(wakes)
    {
      if resetInfo == EventResetAutomatic {
        isSignaled := false;
      }
    }

    /** `_timerExpired`, run by the OS fire callback. With an OS timer, the fire is
        counted, the next due time (`nextDue`, from `convTimeout`) recorded, the
        timer signaled and its waiters woken, and the waiter registered for the
        owning thread, if there is one (`waiterFound`), notified. After a cancel
        there is no OS timer and the fire changes nothing. */
    method TimerExpired(nextDue: TimeSpec, waiterFound: bool)
      requires Valid()
      modifies this
      ensures Valid()
      ensures old(timerId) == NoTimer ==>
                isSignaled == old(isSignaled) && firedCount == old(firedCount)
                && dueTime == old(dueTime) && wakes == old(wakes)
      ensures old(timerId) != NoTimer ==>
                isSignaled && firedCount == old(firedCount) + 1 && dueTime == nextDue
                && wakes == old(wakes) + [EventSignaled]
                             + (if waiterFound then [AsynchSignal(old(threadId))] else [])
      ensures timerId == old(timerId) && timeout == old(timeout) && threadId == old(threadId)
    {
      var sendSignal := false;
      if timerId != NoTimer {
        firedCount := firedCount + 1;
        dueTime := nextDue;
        isSignaled := true;
        sendSignal := true;
      }
      if sendSignal {
        wakes := wakes + [EventSignaled];
        if waiterFound {
          wakes := wakes + [AsynchSignal(threadId)];
        }
      }
    }
  }

  /** A zero timeout never yields a valid timer. */
  method SetTimerZeroIsInvalid(t: WaitableTimerIX, isPeriodic: bool,
                               created: bool, osTimerId: nat, due: TimeSpec, armed: bool, currentThread: nat)
    returns (ok: bool, valid: bool)
    modifies t
    ensures !ok && !valid
    ensures t.timerId == NoTimer
  {
    ok := t.SetTimer(0, isPeriodic, created, osTimerId, due, armed, currentThread);
    valid := t.IsValid();
  }

  /** A fire that arrives after `cancelTimer` is ignored: the timer stays
      signaled, unfired and invalid, and nobody else is woken. */
  method CancelThenFire(t: WaitableTimerIX, nextDue: TimeSpec, waiterFound: bool)
    modifies t
    ensures t.isSignaled && t.firedCount == 0 && t.timerId == NoTimer
    ensures t.wakes == WakeIfWasUnsignaled(old(t.wakes), old(t.isSignaled))
  {
    var _ := t.CancelTimer();
    t.TimerExpired(nextDue, waiterFound);
  }

  /** Stopping twice wakes waiters at most once: the second stop finds the timer
      signaled already. */
  method StopTwice(t: WaitableTimerIX)
    modifies t
    ensures t.isSignaled && t.timeout == 0 && t.firedCount == 0
    ensures t.wakes == WakeIfWasUnsignaled(old(t.wakes), old(t.isSignaled))
  {
    var _ := t.StopTimer();
    var _ := t.StopTimer();
  }
}
