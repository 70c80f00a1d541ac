/**
  Timer bookkeeping of the timer manager: the per-timer record `TimerInfo`, the
  expiration record `ExpiredTimerInfo`, the FIFO of expirations `ExpiredTimers`
  and the timer table `MapTimerTable` that maps a Timer to its record.

  A Timer is identified by its address; `TimerRef` stands for that address and
  `NullTimer` for the null pointer. The two questions a record asks its Timer
  object (`Timer::isActive` and `Timer::timerIsStarting`) are answered by the
  caller as boolean parameters.
*/
module TimerRecords {
  import opened Machine

  /** Address of a Timer object. */
  type TimerRef = nat

  const NullTimer: TimerRef := 0

  // ---------------------------------------------------------------------------
  // TimerInfo
  // ---------------------------------------------------------------------------

  /** `TimerInfo::eTimerState`. */
  datatype TimerState = TimerInvalid | TimerIdle | TimerPending | TimerExpired

  /** `TimerInfo::getString`: the printable name of a state, the qualified
      enumerator spelled out. */
  function StateName(state: TimerState): (name: string)
    ensures |name| > 11 && name[..11] == "TimerInfo::"
  {
    match state
    case TimerInvalid => "TimerInfo::TimerInvalid"
    case TimerIdle    => "TimerInfo::TimerIdle"
    case TimerPending => "TimerInfo::TimerPending"
    case TimerExpired => "TimerInfo::TimerExpired"
  }

  /** Different states never print alike, so a logged name identifies its state. */
  lemma StateNameInjective(a: TimerState, b: TimerState)
    ensures StateName(a) == StateName(b) <==> a == b
  {
  }

  /** The record the timer manager keeps for every registered timer. */
  datatype TimerInfo = TimerInfo(
    timer: TimerRef,          // mTimer
    handle: nat,              // mHandle, the OS timer handle
    ownThreadId: nat,         // mOwnThreadId, the dispatcher thread that owns the timer
    startedAt: uint64,        // mStartedAt
    expiredAt: uint64,        // mExpiredAt
    timerState: TimerState)   // mTimerState

  /** `TimerInfo::isTimerActive`; `timerIsActive` is the answer of `Timer::isActive`. */
  function IsTimerActive(info: TimerInfo, timerIsActive: bool): (active: bool)
    ensures active ==> info.timerState in {TimerInvalid, TimerPending, TimerExpired}
    ensures active ==> timerIsActive
    ensures info.timerState != TimerIdle && timerIsActive ==> active
  {
    info.timerState != TimerIdle && timerIsActive
  }

  /** `TimerInfo::canStartTimer`; `timerIsStarting` is the answer of
      `Timer::timerIsStarting`. The source asserts that the record has a timer. */
  function CanStartTimer(info: TimerInfo, timerIsStarting: bool): (canStart: bool)
    requires info.timer != NullTimer
    ensures canStart ==> info.timerState == TimerIdle && timerIsStarting
    ensures info.timerState == TimerIdle && timerIsStarting ==> canStart
  {
    info.timerState == TimerIdle && timerIsStarting
  }

  /** A record is never both active and startable: activity needs a non-idle
      state, starting needs the idle one. */
  lemma ActiveExcludesStart(info: TimerInfo, timerIsActive: bool, timerIsStarting: bool)
    requires info.timer != NullTimer
    ensures !(IsTimerActive(info, timerIsActive) && CanStartTimer(info, timerIsStarting))
  {
  }

  /** `TimerInfo::resetActiveTimer`. The record is a value that the table copies,
      so the update is returned as the second component: an active timer goes back
      to Pending and the call reports true; otherwise nothing changes. */
  function ResetActiveTimer(info: TimerInfo, timerIsActive: bool): (r: (bool, TimerInfo))
    ensures r.0 <==> IsTimerActive(info, timerIsActive)
    ensures r.0 ==> r.1.timerState == TimerPending
    ensures r.1.timer == info.timer && r.1.handle == info.handle
    ensures r.1.ownThreadId == info.ownThreadId
    ensures r.1.startedAt == info.startedAt && r.1.expiredAt == info.expiredAt
    ensures !r.0 ==> r.1 == info
  {
    if IsTimerActive(info, timerIsActive) then (true, info.(timerState := TimerPending))
    else (false, info)
  }

  /** Resetting keeps an active timer active, and a second reset changes nothing more. */
  lemma ResetActiveTimerIdempotent(info: TimerInfo, timerIsActive: bool)
    requires ResetActiveTimer(info, timerIsActive).0
    ensures IsTimerActive(ResetActiveTimer(info, timerIsActive).1, timerIsActive)
    ensures ResetActiveTimer(ResetActiveTimer(info, timerIsActive).1, timerIsActive)
         == ResetActiveTimer(info, timerIsActive)
  {
  }

  // ---------------------------------------------------------------------------
  // ExpiredTimerInfo
  // ---------------------------------------------------------------------------

  /** One expiration of a timer, with the expiration time split in two 32-bit halves. */
  datatype ExpiredTimerInfo = ExpiredTimerInfo(
    timer: TimerRef,       // mTimer
    lowValue: uint32,      // mLowValue
    highValue: uint32)     // mHighValue

  /** The default constructor: no timer, zero time. */
  function EmptyExpiredTimerInfo(): (e: ExpiredTimerInfo)
    ensures e.timer == NullTimer && Stamp(e) == 0
  {
    ExpiredTimerInfo(NullTimer, 0, 0)
  }

  /** The three-argument constructor as it is defined: the second argument is the
      HIGH half of the expiration time and the third the LOW half. */
  function NewExpiredTimerInfo(timer: TimerRef, highValue: uint32, lowValue: uint32): (e: ExpiredTimerInfo)
    ensures e.timer == timer
    ensures Stamp(e) == highValue * 0x1_0000_0000 + lowValue
  {
    ExpiredTimerInfo(timer, lowValue, highValue)
  }

  /** The 64-bit expiration time the two halves encode. */
  function Stamp(e: ExpiredTimerInfo): uint64
  {
    e.highValue * 0x1_0000_0000 + e.lowValue
  }

  /** Splitting a 64-bit time into (high, low) and handing the halves to the
      constructor in its defined order records that very time. */
  lemma StampRoundTrip(timer: TimerRef, time: uint64)
    ensures Stamp(NewExpiredTimerInfo(timer, time / 0x1_0000_0000, time % 0x1_0000_0000)) == time
  {
  }

  /** The class declaration names the halves in the other order (timer, low,
      high). A caller that follows the declaration with two different halves
      gets a different time recorded than the one it meant. */
  lemma DeclaredOrderSwapsHalves(timer: TimerRef, low: uint32, high: uint32)
    requires low != high
    ensures Stamp(NewExpiredTimerInfo(timer, low, high)) != high * 0x1_0000_0000 + low
  {
    assert Stamp(NewExpiredTimerInfo(timer, low, high)) - (high * 0x1_0000_0000 + low)
        == (low - high) * 0xFFFF_FFFF;
  }

  /** `ExpiredTimerInfo::operator ==`: entries are equal when they are about the
      same timer, whatever their times. */
  predicate SameTimer(a: ExpiredTimerInfo, b: ExpiredTimerInfo): (same: bool)
    ensures same <==> a.(lowValue := 0, highValue := 0) == b.(lowValue := 0, highValue := 0)
    ensures a == b ==> same
  {
    a.timer == b.timer
  }

  /** The equality ignores the expiration time entirely and is an equivalence. */
  lemma SameTimerIsEquivalence(a: ExpiredTimerInfo, b: ExpiredTimerInfo, c: ExpiredTimerInfo, low: uint32, high: uint32)
    ensures SameTimer(a, a.(lowValue := low, highValue := high))
    ensures SameTimer(a, b) <==> SameTimer(b, a)
    ensures SameTimer(a, b) && SameTimer(b, c) ==> SameTimer(a, c)
    ensures SameTimer(a, b) <==> a.timer == b.timer
  {
  }

  // ---------------------------------------------------------------------------
  // Specification of the expired-timer list
  // ---------------------------------------------------------------------------

  /** Number of entries of `q` about timer `t`. */
  function CountOf(q: seq<ExpiredTimerInfo>, t: TimerRef): (n: nat)
    ensures n <= |q|
  {
    if q == [] then 0
    else CountOf(q[..|q| - 1], t) + (if q[|q| - 1].timer == t then 1 else 0)
  }

  /** `q` with every entry about timer `t` taken out, the others in their order. */
  function Without(q: seq<ExpiredTimerInfo>, t: TimerRef): (r: seq<ExpiredTimerInfo>)
    ensures |r| <= |q|
    ensures forall k :: 0 <= k < |r| ==> r[k].timer != t
  {
    if q == [] then []
    else Without(q[..|q| - 1], t) + (if q[|q| - 1].timer == t then [] else [q[|q| - 1]])
  }

  /** Taking out the entries of `t` shortens the list by exactly their number. */
  lemma {:induction false} WithoutCount(q: seq<ExpiredTimerInfo>, t: TimerRef)
    ensures |Without(q, t)| + CountOf(q, t) == |q|
  {
    if q != [] {
      WithoutCount(q[..|q| - 1], t);
    }
  }

  /** Every entry about another timer survives as often as it occurred, and none
      about `t` remains. */
  lemma {:induction false} WithoutKeepsOthers(q: seq<ExpiredTimerInfo>, t: TimerRef, e: ExpiredTimerInfo)
    ensures e.timer != t ==> multiset(Without(q, t))[e] == multiset(q)[e]
    ensures e.timer == t ==> multiset(Without(q, t))[e] == 0
  {
    if q != [] {
      var init := q[..|q| - 1];
      WithoutKeepsOthers(init, t, e);
      assert q == init + [q[|q| - 1]];
    }
  }

  /** A list that holds nothing about `t` is left as it is. */
  lemma {:induction false} WithoutNoMatch(q: seq<ExpiredTimerInfo>, t: TimerRef)
    requires forall k :: 0 <= k < |q| ==> q[k].timer != t
    ensures Without(q, t) == q
    ensures CountOf(q, t) == 0
  {
    if q != [] {
      WithoutNoMatch(q[..|q| - 1], t);
    }
  }

  /** Removing the entries of a timer twice removes nothing the second time. */
  lemma WithoutIdempotent(q: seq<ExpiredTimerInfo>, t: TimerRef)
    ensures Without(Without(q, t), t) == Without(q, t)
    ensures CountOf(Without(q, t), t) == 0
  {
    WithoutNoMatch(Without(q, t), t);
  }

  /** Where the first entry about `whichTimer` at or after position `from` lies. */
  ghost predicate FirstMatchFrom(q: seq<ExpiredTimerInfo>, whichTimer: TimerRef, from: nat, pos: Option<nat>)
  {
    match pos
    case Some(p) =>
      from <= p < |q| && q[p].timer == whichTimer
      && forall k :: from <= k < p ==> q[k].timer != whichTimer
    case None =>
      forall k :: from <= k < |q| ==> q[k].timer != whichTimer
  }

  /** Where a search starts: at the head, or just after the given position. */
  function SearchStart(searchAfter: Option<nat>): (start: nat)
    ensures searchAfter.None? ==> start == 0
    ensures searchAfter.Some? ==> start == searchAfter.value + 1
  {
    match searchAfter
    case None => 0
    case Some(p) => p + 1
  }

  // ---------------------------------------------------------------------------
  // ExpiredTimers: the FIFO of expirations
  // ---------------------------------------------------------------------------

  /** `ExpiredTimers`, a linked list used as a FIFO; positions are indices from the head. */
  class ExpiredTimers {
    /** The entries, head first. */
    var entries: seq<ExpiredTimerInfo>

    constructor ()
      ensures entries == []
    {
      entries := [];
    }

    method IsEmpty() returns (empty: bool)
      ensures empty <==> entries == []
    {
      empty := |entries| == 0;
    }

    method GetSize() returns (size: nat)
      ensures size == |entries|
    {
      size := |entries|;
    }

    /** Appends at the tail. */
    method PushTimer(timerInfo: ExpiredTimerInfo)
      modifies this
      ensures entries == old(entries) + [timerInfo]
      ensures |entries| == |old(entries)| + 1
    {
      entries := entries + [timerInfo];
    }

    /** Removes and returns the head; the list must not be empty. */
    method PopTimer() returns (head: ExpiredTimerInfo)
      requires entries != []
      modifies this
      ensures head == old(entries)[0]
      ensures entries == old(entries)[1..]
      ensures |entries| == |old(entries)| - 1
    {
      head := entries[0];
      entries := entries[1..];
    }

    method RemoveAll()
      modifies this
      ensures entries == []
    {
      entries := [];
    }

    /** The position of the first entry about `whichTimer`, searching from the head
        or from just after `searchAfter`; None when there is none. */
    method FindTimer(whichTimer: TimerRef, searchAfter: Option<nat>) returns (pos: Option<nat>)
      requires searchAfter.Some? ==> searchAfter.value < |entries|
      ensures FirstMatchFrom(entries, whichTimer, SearchStart(searchAfter), pos)
    {
      var start := SearchStart(searchAfter);
      var i := start;
      while i < |entries|
        invariant start <= i <= |entries|
        invariant forall k :: start <= k < i ==> entries[k].timer != whichTimer
      {
        if entries[i].timer == whichTimer {
          return Some(i);
        }
        i := i + 1;
      }
      return None;
    }

    /** Removes every entry about `whichTimer`, keeping the others in order, and
        returns how many were removed. */
    method RemoveAllTimers(whichTimer: TimerRef) returns (removed: nat)
      modifies this
      ensures entries == Without(old(entries), whichTimer)
      ensures removed == CountOf(old(entries), whichTimer)
      ensures removed == |old(entries)| - |entries|
      ensures forall k :: 0 <= k < |entries| ==> entries[k].timer != whichTimer
    {
      var kept: seq<ExpiredTimerInfo> := [];
      removed := 0;
      var i := 0;
      while i < |entries|
        invariant 0 <= i <= |entries|
        invariant kept == Without(entries[..i], whichTimer)
        invariant removed == CountOf(entries[..i], whichTimer)
      {
        assert entries[..i + 1][..i] == entries[..i];
        if entries[i].timer == whichTimer {
          removed := removed + 1;
        } else {
          kept := kept + [entries[i]];
        }
        i := i + 1;
      }
      assert entries[..i] == entries;
      WithoutCount(entries, whichTimer);
      entries := kept;
    }
  }

  /** Pushed expirations come out in the order they went in. */
  method FifoOrder(list: ExpiredTimers, first: ExpiredTimerInfo, second: ExpiredTimerInfo)
    returns (a: ExpiredTimerInfo, b: ExpiredTimerInfo)
    requires list.entries == []
    modifies list
    ensures a == first && b == second
    ensures list.entries == []
  {
    list.PushTimer(first);
    list.PushTimer(second);
    a := list.PopTimer();
    b := list.PopTimer();
  }

  // ---------------------------------------------------------------------------
  // MapTimerTable
  // ---------------------------------------------------------------------------

  /** `MapTimerTable`, the hash map from Timer address to its record. */
  class MapTimerTable {
    var table: map<TimerRef, TimerInfo>

    constructor ()
      ensures table == map[]
    {
      table := map[];
    }

    method IsEmpty() returns (empty: bool)
      ensures empty <==> table == map[]
    {
      empty := |table| == 0;
    }

    method GetSize() returns (size: nat)
      ensures size == |table|
    {
      size := |table|;
    }

    /** True exactly when `key` is registered. */
    method KeyExists(key: TimerRef) returns (present: bool)
      ensures present <==> key in table
    {
      present := key in table;
    }

    /** Both `findObject` overloads: the stored record when `key` is registered
        (true / a non-null pointer), None otherwise (false / NULL). */
    method FindObject(key: TimerRef) returns (found: Option<TimerInfo>)
      ensures found.Some? <==> key in table
      ensures found.Some? ==> found.value == table[key]
    {
      if key in table {
        found := Some(table[key]);
      } else {
        found := None;
      }
    }

    method RemoveAll()
      modifies this
      ensures table == map[]
    {
      table := map[];
    }

    /** Stores `info` under `key`, replacing a record already there. */
    method RegisterObject(key: TimerRef, info: TimerInfo)
      modifies this
      ensures table == old(table)[key := info]
      ensures key in table && table[key] == info
    {
      table := table[key := info];
    }

    /** Replaces the record of a registered key; an unregistered key changes nothing. */
    method UpdateObject(key: TimerRef, info: TimerInfo) returns (updated: bool)
      modifies this
      ensures updated <==> key in old(table)
      ensures updated ==> table == old(table)[key := info]
      ensures !updated ==> table == old(table)
    {
      updated := key in table;
      if updated {
        table := table[key := info];
      }
    }

    /** Both `unregisterObject` overloads: removes `key` and hands back its record
        when it was registered; afterwards `key` is absent either way. */
    method UnregisterObject(key: TimerRef) returns (removed: Option<TimerInfo>)
      modifies this
      ensures removed.Some? <==> key in old(table)
      ensures removed.Some? ==> removed.value == old(table)[key]
      ensures table == old(table) - {key}
      ensures key !in table
    {
      if key in table {
        removed := Some(table[key]);
        table := table - {key};
      } else {
        removed := None;
      }
    }

    /** Removes one entry, the first in the map's own order (which the model does
        not fix), and hands back its key and record; None on an empty table. */
    method UnregisterFirstObject() returns (first: Option<(TimerRef, TimerInfo)>)
      modifies this
      ensures first.None? <==> old(table) == map[]
      ensures first.None? ==> table == old(table)
      ensures first.Some? ==> (first.value.0 in old(table)
                               && first.value.1 == old(table)[first.value.0]
                               && table == old(table) - {first.value.0})
    {
      if table == map[] {
        first := None;
      } else {
        var key :| key in table;
        first := Some((key, table[key]));
        table := table - {key};
      }
    }

    /** Sets the record of a registered, active timer back to Pending and reports
        true; anything else reports false and leaves the table as it was.
        `timerIsActive` is the answer of that timer's `Timer::isActive`. */
    method ResetActiveTimerState(key: TimerRef, timerIsActive: bool) returns (reset: bool)
      modifies this
      ensures reset <==> key in old(table) && IsTimerActive(old(table)[key], timerIsActive)
      ensures reset ==> table == old(table)[key := old(table)[key].(timerState := TimerPending)]
      ensures !reset ==> table == old(table)
    {
      reset := false;
      if key in table {
        var r := ResetActiveTimer(table[key], timerIsActive);
        if r.0 {
          table := table[key := r.1];
          reset := true;
        }
      }
    }
  }
}
