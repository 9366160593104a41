/** The asyncio reactor's timer: one `call_at` handle that wakes the pass over the timed calls. */
module AsyncioTimers {
  import opened Prelude
  import opened ReactorTimers
  import opened TimerHeap

  function Later(a: real, b: real): real { if a < b then b else a }

  /** Every outstanding call has a timer armed for it: it goes off no later than the key the call
      is stored under, or at once if that was already past when the timer was armed. */
  ghost predicate Armed(calls: seq<Call>, timer: Option<real>, armedAt: real) {
    forall k :: 0 <= k < |calls| && calls[k].Active() ==> timer.Some? && timer.value <= Later(armedAt, calls[k].time)
  }

  /** The timer after a call for which one at `absTime` would do. */
  function Sooner(timer: Option<real>, absTime: real): Option<real> {
    if timer.Some? && timer.value <= absTime then timer else Some(absTime)
  }

  /** One clock serves the reactor and the event loop, and each method reads it once. */
  class AsyncioReactor {
    const base: Reactor
    var scheduledAt: Option<real>       // _scheduledAt
    var timer: Option<real>             // when the live _timerHandle goes off
    ghost var armedAt: real             // what the clock said when it was set
    ghost var clock: real               // the latest that the clock has said

    ghost predicate Valid()
      reads this, base
    {
      && base.Valid() && base.staged == [] && scheduledAt == timer && Armed(base.calls, timer, armedAt)
      && armedAt <= clock
    }

    constructor (now: real)
      ensures Valid() && fresh(base) && base.calls == [] && timer == None && clock == now
    {
      base := new Reactor();
      scheduledAt, timer, armedAt, clock := None, None, now, now;
    }

    /** When a timer that is armed now goes off: when the earliest key is reached, but not before
        now, nor more than LONGEST later. */
    ghost function WakeAt(now: real): Option<real>
      reads base
    {
      if base.heap == [] then None else Some(now + Clamped(Key(base.calls, base.heap[0]) - now))
    }

    /** The timer was armed now; without a call in the heap it is left as it was. */
    ghost predicate Rearmed(now: real, timer0: Option<real>, armedAt0: real)
      reads this, base
    {
      if base.heap == [] then timer == timer0 && armedAt == armedAt0 else timer == WakeAt(now) && armedAt == now
    }

    /** `_reschedule`: arms the timer, whatever happened before. */
    method Reschedule(now: real)
      requires base.Valid() && scheduledAt == timer && armedAt <= clock
      modifies this, base`calls, base`heap, base`staged, base`cancellations
      ensures Valid() && View(base.calls) == View(old(base.calls)) && base.history == old(base.history)
      ensures clock == Later(old(clock), now) && Rearmed(now, old(timer), old(armedAt))
      ensures forall c :: c in base.heap ==> Key(base.calls, base.heap[0]) <= Key(base.calls, c)
      ensures SameButTimes(old(base.calls), base.calls)
      ensures old(base.staged) == [] ==> base.heap == old(base.heap) && base.calls == old(base.calls)
    {
      hide Books, HeapOrder, View, SameButTimes, LaterKeys;
      clock := Later(clock, now);
      var delay := base.Timeout(now);
      if delay.Some? {
        var absTime := now + delay.value;
        scheduledAt := Some(absTime);
        timer := Some(absTime);
        armedAt := now;
      } else {
        NothingToArm(base.calls, timer, armedAt);
      }
    }

    /** `callLater`. */
    method CallLater(now: real, seconds: real, func: seq<Op>) returns (r: Option<nat>)
      requires Valid()
      modifies this, base`calls, base`heap, base`staged, base`cancellations
      ensures Valid() && base.history == old(base.history)
      ensures View(base.calls) == View(old(base.calls)) + if r.Some? then [Some(now + seconds)] else []
      ensures r == if seconds < 0.0 then None else Some(|old(base.calls)|)
      ensures clock == Later(old(clock), now)
      ensures r.Some? ==> base.heap != [] && timer == Sooner(old(timer), WakeAt(now).value)
      ensures armedAt == if timer == old(timer) then old(armedAt) else now
    {
      hide Books, HeapOrder, View, Armed, Effect;
      ghost var calls0 := base.calls;
      clock := Later(clock, now);
      r := base.DoCallLater(now, seconds, func);
      if r.None? {
        assert base.staged == [];
        return;
      }
      ArmForNewCall(calls0, now, seconds, func);
    }

    /** The rest of `callLater`, once the call is staged. */
    method ArmForNewCall(ghost calls0: seq<Call>, now: real, seconds: real, ghost func: seq<Op>)
      requires base.Valid() && seconds >= 0.0 && scheduledAt == timer && armedAt <= clock && now <= clock
      requires Armed(calls0, timer, armedAt) && base.calls == calls0 + [Call(now + seconds, 0.0, false, false, func)]
      modifies this, base`calls, base`heap, base`staged, base`cancellations
      ensures Valid() && View(base.calls) == View(old(base.calls)) && clock == old(clock)
      ensures base.heap != [] && timer == Sooner(old(timer), WakeAt(now).value)
      ensures armedAt == if timer == old(timer) then old(armedAt) else now
    {
      hide Books, HeapOrder, View, Armed;
      ghost var calls1 := base.calls;
      var delay := base.Timeout(now);
      NewCallIsDue(calls0, calls1, base.calls, now, seconds, func);
      hide SameButTimes, LaterKeys;
      var absTime := now + delay.value;
      if scheduledAt.None? || absTime < scheduledAt.value {
        Reschedule(now);
      } else {
        StillArmed(calls0, base.calls, timer, armedAt, now, absTime);
      }
    }

    /** `DelayedCall.cancel`. */
    method Cancel(k: nat) returns (s: Status)
      requires Valid() && k < |base.calls|
      modifies base`calls, base`cancellations
      ensures Valid() && s == old(base.StatusOf(k))
      ensures View(base.calls) == if s.Done? then View(old(base.calls))[k := None] else View(old(base.calls))
    {
      hide Books, HeapOrder;
      ghost var calls0 := base.calls;
      s := base.DoCancel(k);
      if s.Done? {
        assert forall c :: 0 <= c < |base.calls| ==> Due(base.calls[c]) == View(base.calls)[c];
        assert forall c :: 0 <= c < |base.calls| && base.calls[c].Active() ==> calls0[c].Active();
      }
    }

    /** `DelayedCall.reset`, with this reactor's `_moveCallLaterSooner` as the resetter. */
    method Reset(k: nat, now: real, seconds: real) returns (s: Status)
      requires Valid() && k < |base.calls|
      modifies this, base`calls, base`heap, base`staged, base`cancellations
      ensures Valid() && s == old(base.StatusOf(k))
      ensures View(base.calls) == if s.Done? then View(old(base.calls))[k := Some(now + seconds)]
                                  else View(old(base.calls))
      ensures clock == Later(old(clock), now)
      ensures if s.Done? && now + seconds < old(base.calls)[k].time then Rearmed(now, old(timer), old(armedAt))
              else timer == old(timer) && armedAt == old(armedAt)
    {
      hide Books, HeapOrder, View;
      clock := Later(clock, now);
      var sooner;
      s, sooner := base.DoReset(k, now, seconds);
      if sooner {
        Reschedule(now);
      }
    }

    /** `DelayedCall.delay`, likewise. */
    method Delay(k: nat, now: real, seconds: real) returns (s: Status)
      requires Valid() && k < |base.calls|
      modifies this, base`calls, base`heap, base`staged, base`cancellations
      ensures Valid() && s == old(base.StatusOf(k))
      ensures var due := old(base.calls)[k].GetTime() + seconds;
              View(base.calls) == if s.Done? then View(old(base.calls))[k := Some(due)] else View(old(base.calls))
      ensures clock == Later(old(clock), now)
      ensures if s.Done? && old(base.calls)[k].delayedTime + seconds < 0.0 then Rearmed(now, old(timer), old(armedAt))
              else timer == old(timer) && armedAt == old(armedAt)
    {
      hide Books, HeapOrder, View;
      clock := Later(clock, now);
      var sooner;
      s, sooner := base.DoDelay(k, seconds);
      if sooner {
        Reschedule(now);
      }
    }

    /** `_onTimer`: the timer has gone off; it is set again after the pass, if a call is left. */
    method OnTimer(now: real, after: real)
      requires Valid() && timer.Some?
      modifies this, base`calls, base`heap, base`staged, base`cancellations, base`missed, base`history
      ensures Valid() && old(base.history) <= base.history
      ensures forall i :: |old(base.history)| <= i < |base.history| ==> base.history[i].now == now
      ensures Passive(old(base.calls)) ==>
                RanDue(View(old(base.calls)), now, View(base.calls), base.history[|old(base.history)|..])
      ensures |old(base.calls)| <= |base.calls|
      ensures forall c :: 0 <= c < |old(base.calls)| && View(base.calls)[c].Some? ==> View(base.calls)[c].value > now
      ensures clock == Later(Later(old(clock), now), after) && Rearmed(after, None, old(armedAt))
    {
      hide Books, HeapOrder, View, RanDue, Passive;
      clock := Later(clock, now);
      timer := None;
      scheduledAt := None;
      ghost var _, _ := base.RunUntilCurrent(now);
      Reschedule(after);
    }
  }

  /** Nor does it wake for nothing: a timer that is armed now goes off when the earliest key is reached,
      unless that is past, or further away than it may sleep. */
  lemma WakesWhenDue(r: AsyncioReactor, now: real)
    requires r.base.heap != []
    ensures var key := Key(r.base.calls, r.base.heap[0]);
            && (now <= key <= now + 2147483.0 ==> r.WakeAt(now) == Some(key))
            && (key < now ==> r.WakeAt(now) == Some(now))
            && (key > now + 2147483.0 ==> r.WakeAt(now) == Some(now + 2147483.0))
  {
  }

  /** For a new call the timer goes off at the sooner of the two times. */
  lemma SoonerIsLeast(timer: Option<real>, absTime: real)
    ensures var t := Sooner(timer, absTime);
            t.Some? && t.value <= absTime && (timer.Some? ==> t.value <= timer.value)
            && (t == timer || t.value == absTime)
  {
  }

  /** The loop never sleeps past a call: the armed timer goes off by the time the call is due, or at
      once if it was due when the timer was armed, which is not in the future. */
  lemma NeverOversleeps(r: AsyncioReactor, k: nat)
    requires r.Valid() && k < |r.base.calls| && View(r.base.calls)[k].Some?
    ensures r.timer.Some? && r.timer.value <= Later(r.armedAt, View(r.base.calls)[k].value)
    ensures r.armedAt <= r.clock && r.timer.value <= Later(r.clock, View(r.base.calls)[k].value)
  {
    assert View(r.base.calls)[k] == Due(r.base.calls[k]);
    assert r.base.calls[k].delayedTime >= 0.0;
  }

  /** Two calls in a row, as any client can make them. */
  method TwoCalls(now: real, seconds: real) returns (r: AsyncioReactor)
    requires seconds >= 0.0
    ensures r.Valid() && View(r.base.calls) == [Some(now + seconds), Some(now + seconds)]
    ensures r.timer.Some? && r.timer.value <= now + seconds
  {
    hide Books, HeapOrder, View, Armed;
    r := new AsyncioReactor(now);
    assert View(r.base.calls) == [];
    var _ := r.CallLater(now, seconds, []);
    var _ := r.CallLater(now, seconds, []);
    NeverOversleeps(r, 0);
  }

  lemma NothingToArm(calls: seq<Call>, timer: Option<real>, armedAt: real)
    requires forall k :: 0 <= k < |calls| ==> View(calls)[k] == None
    ensures Armed(calls, timer, armedAt)
  {
    assert forall k :: 0 <= k < |calls| ==> Due(calls[k]) == View(calls)[k];
  }

  lemma NewCallIsDue(calls0: seq<Call>, calls1: seq<Call>, calls2: seq<Call>, now: real, seconds: real, func: seq<Op>)
    requires calls1 == calls0 + [Call(now + seconds, 0.0, false, false, func)]
    requires SameButTimes(calls1, calls2) && LaterKeys(calls1, calls2) && View(calls2) == View(calls1)
    ensures View(calls2)[|calls0|] == Some(now + seconds)
    ensures LaterKeys(calls0, calls2[..|calls0|]) && SameButTimes(calls0, calls2[..|calls0|])
    ensures |calls2| == |calls0| + 1 && calls2[|calls0|].Active() && calls2[|calls0|].time >= now + seconds
  {
    assert View(calls2)[|calls0|] == View(calls1)[|calls0|];
    assert calls1[|calls0|] == Call(now + seconds, 0.0, false, false, func);
    forall c | 0 <= c < |calls0|
      ensures calls0[c].time <= calls2[..|calls0|][c].time
      ensures calls2[..|calls0|][c] == calls0[c].(time := calls2[c].time, delayedTime := calls2[c].delayedTime)
    {
      assert calls1[c] == calls0[c];
    }
  }

  /** The armed timer was early enough for the new call as well. */
  lemma StillArmed(calls0: seq<Call>, calls2: seq<Call>, timer: Option<real>, armedAt: real, now: real, absTime: real)
    requires Armed(calls0, timer, armedAt) && timer.Some? && timer.value <= absTime
    requires |calls2| == |calls0| + 1
    requires LaterKeys(calls0, calls2[..|calls0|]) && SameButTimes(calls0, calls2[..|calls0|])
    requires now <= calls2[|calls0|].time && absTime <= Later(now, calls2[|calls0|].time)
    ensures Armed(calls2, timer, armedAt)
  {
    forall k | 0 <= k < |calls2| && calls2[k].Active()
      ensures timer.value <= Later(armedAt, calls2[k].time)
    {
      if k < |calls0| {
        assert calls2[..|calls0|][k] == calls2[k];
      }
    }
  }
}
