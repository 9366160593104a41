/** The timed calls of a reactor: a lazily updated, lazily emptied heap plus a staging list, which
    behave like a plain list of due times (`View`). */
module ReactorTimers {
  import opened Prelude
  import opened TimerHeap

  datatype Status = Done | AlreadyCancelled | AlreadyCalled

  /** A call that was run, when it was due, and the pass's idea of now. */
  datatype Ran = Ran(call: nat, due: real, now: real)

  function Due(c: Call): Option<real> { if c.Active() then Some(c.GetTime()) else None }

  /** The plain specification: for each call made, in order, when it is due, or nothing once it has
      run or has been cancelled. */
  function View(calls: seq<Call>): (v: seq<Option<real>>)
    ensures |v| == |calls| && forall k :: 0 <= k < |calls| ==> v[k] == Due(calls[k])
  {
    seq(|calls|, k requires 0 <= k < |calls| => Due(calls[k]))
  }

  /** The stored calls are among those made, each stored once, and have not run. */
  ghost predicate Stored(bag: multiset<nat>, calls: seq<Call>) {
    forall c :: c in bag ==> bag[c] == 1 && c < |calls| && !calls[c].called
  }

  /** A call is never both run and cancelled, never due before its key, and stored while it is
      outstanding. */
  ghost predicate Flags(bag: multiset<nat>, calls: seq<Call>) {
    forall c :: 0 <= c < |calls| ==>
      !(calls[c].called && calls[c].cancelled) && calls[c].delayedTime >= 0.0 && (calls[c].Active() ==> c in bag)
  }

  ghost function CancelledIn(bag: multiset<nat>, calls: seq<Call>): set<nat> {
    set c: nat | c < |calls| && c in bag && calls[c].cancelled
  }

  ghost predicate HasRun(history: seq<Ran>, c: nat) { exists i :: 0 <= i < |history| && history[i].call == c }

  /** The history lists the calls that have run, each once, none before it was due. */
  ghost predicate Ledger(history: seq<Ran>, calls: seq<Call>) {
    && (forall i :: 0 <= i < |history| ==>
          history[i].call < |calls| && calls[history[i].call].GetTime() == history[i].due <= history[i].now)
    && (forall i, j :: 0 <= i < j < |history| ==> history[i].call != history[j].call)
    && (forall c :: 0 <= c < |calls| ==> (calls[c].called <==> HasRun(history, c)))
  }

  ghost predicate Books(bag: multiset<nat>, calls: seq<Call>, cancelled: int, history: seq<Ran>) {
    Stored(bag, calls) && Flags(bag, calls) && Ledger(history, calls) && cancelled == |CancelledIn(bag, calls)|
  }

  lemma NewCallBooks(bag: multiset<nat>, calls: seq<Call>, cancelled: int, history: seq<Ran>, c: Call)
    requires Books(bag, calls, cancelled, history) && c.Active() && c.delayedTime == 0.0
    ensures Books(bag + multiset{|calls|}, calls + [c], cancelled, history)
  {
    var n := |calls|;
    var bag', calls' := bag + multiset{n}, calls + [c];
    assert n !in bag;
    assert CancelledIn(bag', calls') == CancelledIn(bag, calls);
    assert forall d :: d in bag' ==> d in bag || d == n;
    assert !HasRun(history, n);
  }

  /** A stored, active call changes its times, keeping the key not after the due time. */
  lemma RetimeBooks(bag: multiset<nat>, calls: seq<Call>, cancelled: int, history: seq<Ran>, k: nat, c: Call)
    requires Books(bag, calls, cancelled, history) && k < |calls|
    requires c.delayedTime >= 0.0 && c.called == calls[k].called && c.cancelled == calls[k].cancelled
    requires calls[k].called ==> c.GetTime() == calls[k].GetTime()
    ensures Books(bag, calls[k := c], cancelled, history)
  {
    assert CancelledIn(bag, calls[k := c]) == CancelledIn(bag, calls);
  }

  lemma CancelBooks(bag: multiset<nat>, calls: seq<Call>, cancelled: int, history: seq<Ran>, k: nat)
    requires Books(bag, calls, cancelled, history) && k < |calls| && calls[k].Active()
    ensures Books(bag, calls[k := calls[k].(cancelled := true)], cancelled + 1, history)
  {
    assert CancelledIn(bag, calls[k := calls[k].(cancelled := true)]) == CancelledIn(bag, calls) + {k};
  }

  /** Dropping a cancelled call from the store takes one off the count. */
  lemma DropBooks(bag: multiset<nat>, calls: seq<Call>, cancelled: int, history: seq<Ran>, k: nat)
    requires Books(bag, calls, cancelled, history) && k in bag && calls[k].cancelled
    ensures Books(bag - multiset{k}, calls, cancelled - 1, history)
  {
    assert k !in bag - multiset{k};
    assert forall c :: c in bag && c != k ==> (bag - multiset{k})[c] == 1;
    assert CancelledIn(bag - multiset{k}, calls) == CancelledIn(bag, calls) - {k};
  }

  lemma RunBooks(bag: multiset<nat>, calls: seq<Call>, cancelled: int, history: seq<Ran>, k: nat, now: real)
    requires Books(bag, calls, cancelled, history) && k in bag && calls[k].Active() && calls[k].GetTime() <= now
    ensures Books(bag - multiset{k}, calls[k := calls[k].(called := true)], cancelled,
                  history + [Ran(k, calls[k].GetTime(), now)])
  {
    var calls', history' := calls[k := calls[k].(called := true)], history + [Ran(k, calls[k].GetTime(), now)];
    assert k !in bag - multiset{k};
    assert forall c :: c in bag && c != k ==> (bag - multiset{k})[c] == 1;
    assert CancelledIn(bag - multiset{k}, calls') == CancelledIn(bag, calls);
    assert !HasRun(history, k);
    forall c | 0 <= c < |calls'|
      ensures calls'[c].called <==> HasRun(history', c)
    {
      if HasRun(history, c) {
        var i :| 0 <= i < |history| && history[i].call == c;
        assert history'[i].call == c;
      }
      assert history'[|history|].call == k;
    }
  }

  /** 2 ** 31 / 1000: the longest wait in seconds that fits a signed 32-bit count of milliseconds. */
  const LONGEST: real := 2147483.0

  /** A wait that is not in the past, nor longer than that. */
  function Clamped(wait: real): real {
    if wait <= 0.0 then 0.0 else if wait < LONGEST then wait else LONGEST
  }

  /** It is what is nearest to the wait in [0, 2147483]. */
  lemma ClampedIsNearest(wait: real, other: real)
    requires 0.0 <= other <= 2147483.0
    ensures 0.0 <= Clamped(wait) <= 2147483.0 && (0.0 <= wait <= 2147483.0 ==> Clamped(wait) == wait)
    ensures Distance(Clamped(wait), wait) <= Distance(other, wait)
  {
  }

  function Distance(a: real, b: real): real { if a < b then b - a else a - b }

  /** More calls may have been made; those there were have run, or not, as before. */
  predicate SameRuns(a: seq<Call>, b: seq<Call>) {
    |a| <= |b| && forall c :: 0 <= c < |a| ==> b[c].called == a[c].called && b[c].func == a[c].func
  }

  /** What one operation of a callback makes of the calls, and whether it returned. */
  function Effect(calls: seq<Call>, op: Op): (seq<Call>, bool) {
    match op
    case CallLater(now, seconds, func) =>
      if seconds < 0.0 then (calls, false) else (calls + [Call(now + seconds, 0.0, false, false, func)], true)
    case Cancel(k) => if Active(calls, k) then (calls[k := calls[k].(cancelled := true)], true) else (calls, false)
    case Reset(k, now, seconds) =>
      if Active(calls, k) then (calls[k := ResetTo(calls[k], now + seconds)], true) else (calls, false)
    case Delay(k, seconds) =>
      if Active(calls, k) then (calls[k := DelayedBy(calls[k], seconds)], true) else (calls, false)
  }

  /** An operation on a call that has run or was cancelled raises. */
  predicate Active(calls: seq<Call>, k: nat) { k < |calls| && calls[k].Active() }

  function ResetTo(c: Call, due: real): Call {
    if due < c.time then c.(time := due, delayedTime := 0.0) else c.(delayedTime := due - c.time)
  }

  function DelayedBy(c: Call, seconds: real): Call {
    var delayed := c.(delayedTime := c.delayedTime + seconds);
    if delayed.delayedTime < 0.0 then delayed.ActivateDelay() else delayed
  }

  lemma EffectKeepsRuns(calls: seq<Call>, op: Op)
    ensures SameRuns(calls, Effect(calls, op).0) && |calls| <= |Effect(calls, op).0| <= |calls| + 1
  {
  }

  /** The operations in order, up to the first that raises. */
  function Effects(calls: seq<Call>, ops: seq<Op>): seq<Call>
    decreases |ops|
  {
    if ops == [] then calls
    else var (calls', ok) := Effect(calls, ops[0]); if ok then Effects(calls', ops[1..]) else calls'
  }

  /** Each of these operations returns when its turn comes. */
  ghost predicate AllReturn(calls: seq<Call>, ops: seq<Op>) {
    forall i :: 0 <= i < |ops| ==> Effect(Effects(calls, ops[..i]), ops[i]).1
  }

  lemma FirstReturns(calls: seq<Call>, ops: seq<Op>)
    requires ops != [] && AllReturn(calls, ops)
    ensures Effect(calls, ops[0]).1 && AllReturn(Effect(calls, ops[0]).0, ops[1..])
  {
    hide Effect;
    assert ops[..0] == [] && Effect(Effects(calls, ops[..0]), ops[0]).1;
    var calls', rest := Effect(calls, ops[0]).0, ops[1..];
    forall i | 0 <= i < |rest|
      ensures Effect(Effects(calls', rest[..i]), rest[i]).1
    {
      assert ops[..i + 1][0] == ops[0] && ops[..i + 1][1..] == rest[..i];
      assert Effect(Effects(calls, ops[..i + 1]), ops[i + 1]).1;
    }
  }

  /** Operations that return take effect one after the other. */
  lemma {:induction false} EffectsInOrder(calls: seq<Call>, a: seq<Op>, b: seq<Op>)
    requires AllReturn(calls, a)
    ensures Effects(calls, a + b) == Effects(Effects(calls, a), b)
    decreases |a|
  {
    hide Effect, AllReturn;
    if a == [] {
      assert a + b == b;
    } else {
      FirstReturns(calls, a);
      assert (a + b)[1..] == a[1..] + b;
      EffectsInOrder(Effect(calls, a[0]).0, a[1..], b);
    }
  }

  /** One that raises has none, nor have those after it. */
  lemma NothingAfterRaising(calls: seq<Call>, a: seq<Op>, op: Op, b: seq<Op>)
    requires AllReturn(calls, a) && !Effect(Effects(calls, a), op).1
    ensures Effects(calls, a + [op] + b) == Effects(calls, a)
  {
    assert a + [op] + b == a + ([op] + b);
    EffectsInOrder(calls, a, [op] + b);
  }

  lemma OneEffect(calls: seq<Call>, op: Op)
    ensures Effects(calls, [op]) == Effect(calls, op).0
  {
    assert [op][1..] == [];
  }

  /** What one turn of a pass does to the calls. */
  datatype Move = Drop | Rekey(c: nat) | Run(c: nat)

  function Moved(calls: seq<Call>, m: Move): seq<Call> {
    match m
    case Drop => calls
    case Rekey(c) => if c < |calls| then calls[c := calls[c].ActivateDelay()] else calls
    case Run(c) => if c < |calls| then Effects(calls[c := calls[c].(called := true)], calls[c].func) else calls
  }

  /** A call that is run counts as run while its callback runs: a callback that first cancels, moves or
      postpones the call that runs it does nothing more. */
  lemma RunningCallIsCalled(calls: seq<Call>, c: nat, op: Op, rest: seq<Op>)
    requires c < |calls| && calls[c].func == [op] + rest
    requires op == Cancel(c) || (op.Reset? && op.k == c) || (op.Delay? && op.k == c)
    ensures Moved(calls, Run(c)) == calls[c := calls[c].(called := true)]
  {
    assert ([op] + rest)[0] == op;
  }

  /** A call that is put back into the heap keeps the time at which it is due, which is its key then. */
  lemma RekeyingKeepsTimes(calls: seq<Call>, c: nat)
    requires c < |calls|
    ensures var calls' := Moved(calls, Rekey(c));
            View(calls') == View(calls) && calls'[c].time == calls[c].GetTime() == calls'[c].GetTime()
            && forall d :: 0 <= d < |calls| && d != c ==> calls'[d] == calls[d]
  {
  }

  function Replay(calls: seq<Call>, moves: seq<Move>): seq<Call> {
    if moves == [] then calls else Moved(Replay(calls, moves[..|moves| - 1]), moves[|moves| - 1])
  }

  function RunBy(moves: seq<Move>): seq<nat> {
    if moves == [] then []
    else
      var m := moves[|moves| - 1];
      RunBy(moves[..|moves| - 1]) + if m.Run? then [m.c] else []
  }

  function CallsOf(ran: seq<Ran>): seq<nat> { seq(|ran|, i requires 0 <= i < |ran| => ran[i].call) }

  function Numbers(a: nat, b: nat): seq<nat> { seq(if a < b then b - a else 0, i => a + i) }

  class Reactor {
    var calls: seq<Call>                // every DelayedCall made
    var heap: seq<nat>                  // _pendingTimedCalls
    var staged: seq<nat>                // _newTimedCalls
    var cancellations: int              // _cancellations
    ghost var missed: nat               // cancelled calls stored that `cancellations` leaves out
    ghost var history: seq<Ran>

    ghost function Bag(): multiset<nat>
      reads this`heap, this`staged
    {
      Both(heap, staged)
    }

    ghost predicate Valid()
      reads this
    {
      Books(Bag(), calls, cancellations + missed, history) && HeapOrder(heap, calls)
    }

    constructor ()
      ensures Valid() && calls == [] && heap == [] && staged == [] && missed == 0 && history == []
    {
      calls, heap, staged, cancellations, missed, history := [], [], [], 0, 0, [];
    }

    /** `callLater`; a negative delay fails its assertion. */
    method DoCallLater(now: real, seconds: real, func: seq<Op>) returns (r: Option<nat>)
      requires Valid()
      modifies this`calls, this`staged
      ensures Valid()
      ensures seconds < 0.0 ==> r == None && calls == old(calls) && staged == old(staged)
      ensures seconds >= 0.0 ==> r == Some(|old(calls)|) && View(calls) == View(old(calls)) + [Some(now + seconds)]
      ensures seconds >= 0.0 ==> calls == old(calls) + [Call(now + seconds, 0.0, false, false, func)]
      ensures seconds >= 0.0 ==> staged == old(staged) + [|old(calls)|]
      ensures (calls, r.Some?) == Effect(old(calls), CallLater(now, seconds, func))
    {
      if seconds < 0.0 {
        return None;
      }
      var tple := Call(now + seconds, 0.0, false, false, func);
      NewCallBooks(Bag(), calls, cancellations + missed, history, tple);
      KeysKept(heap, calls, calls + [tple]);
      staged := staged + [|calls|];
      calls := calls + [tple];
      assert Bag() == old(Bag()) + multiset{|old(calls)|};
      return Some(|calls| - 1);
    }

    /** How many cancelled calls are stored. */
    ghost function CancelledStored(): nat
      reads this
    {
      |CancelledIn(Bag(), calls)|
    }

    function StatusOf(k: nat): Status
      requires k < |calls|
      reads this`calls
    {
      if calls[k].cancelled then AlreadyCancelled else if calls[k].called then AlreadyCalled else Done
    }

    /** Which error a call gives tells what became of it. */
    lemma StatusTells(k: nat)
      requires Valid() && k < |calls|
      ensures StatusOf(k) == Done <==> View(calls)[k].Some?
      ensures StatusOf(k) == AlreadyCalled <==> HasRun(history, k)
      ensures StatusOf(k) == AlreadyCancelled <==> calls[k].cancelled
    {
      assert View(calls)[k] == Due(calls[k]);
    }

    /** `cancel`, with `_cancelCallLater`. */
    method DoCancel(k: nat) returns (s: Status)
      requires Valid() && k < |calls|
      modifies this`calls, this`cancellations
      ensures Valid() && s == old(StatusOf(k))
      ensures View(calls) == if s.Done? then View(old(calls))[k := None] else View(old(calls))
      ensures |calls| == |old(calls)| && forall c :: 0 <= c < |calls| ==>
                calls[c] == old(calls)[c].(cancelled := calls[c].cancelled)
      ensures (calls, s.Done?) == Effect(old(calls), Cancel(k))
      ensures cancellations == old(cancellations) + if s.Done? then 1 else 0
      ensures s.Done? ==> StatusOf(k) == AlreadyCancelled
    {
      if calls[k].cancelled {
        return AlreadyCancelled;
      } else if calls[k].called {
        return AlreadyCalled;
      }
      CancelBooks(Bag(), calls, cancellations + missed, history, k);
      KeysKept(heap, calls, calls[k := calls[k].(cancelled := true)]);
      cancellations := cancellations + 1;
      calls := calls[k := calls[k].(cancelled := true)];
      return Done;
    }

    /** `_moveCallLaterSooner`: find the call, and sift it up. */
    method MoveCallLaterSooner(c: nat)
      requires c !in heap ==> HeapOrder(heap, calls)
      requires forall pos :: 0 <= pos < |heap| && heap[pos] == c ==> EarlyAt(heap, calls, pos)
      modifies this`heap
      ensures HeapOrder(heap, calls) && multiset(heap) == multiset(old(heap))
    {
      var pos := 0;
      while pos < |heap| && heap[pos] != c
        invariant 0 <= pos <= |heap| && c !in heap[..pos]
      {
        pos := pos + 1;
      }
      if pos < |heap| {
        heap := SiftUp(heap, calls, pos);
      } else {
        assert heap[..pos] == heap;
      }
    }

    lemma HeapOnce()
      requires Stored(Bag(), calls)
      ensures forall d :: d in heap ==> multiset(heap)[d] == 1 && d < |calls|
    {
      forall d | d in heap
        ensures multiset(heap)[d] == 1 && d < |calls|
      {
        assert d in Bag();
        assert multiset(heap)[d] >= 1;
        assert Bag()[d] == multiset(heap)[d] + multiset(staged)[d];
      }
    }

    /** `reset`; the flag says whether the reactor's `_moveCallLaterSooner` was called. */
    method DoReset(k: nat, now: real, seconds: real) returns (s: Status, sooner: bool)
      requires Valid() && k < |calls|
      modifies this`calls, this`heap
      ensures Valid() && s == old(StatusOf(k)) && multiset(heap) == multiset(old(heap)) && |calls| == |old(calls)|
      ensures View(calls) == if s.Done? then View(old(calls))[k := Some(now + seconds)] else View(old(calls))
      ensures (calls, s.Done?) == Effect(old(calls), Reset(k, now, seconds))
      ensures sooner <==> s.Done? && now + seconds < old(calls)[k].time
      ensures SameButTimes(old(calls), calls)
      ensures forall c :: 0 <= c < |calls| && (c != k || !sooner) ==> calls[c].time == old(calls)[c].time
      ensures !sooner ==> heap == old(heap)
    {
      hide Books, HeapOrder;
      sooner := false;
      if calls[k].cancelled {
        return AlreadyCancelled, false;
      } else if calls[k].called {
        return AlreadyCalled, false;
      }
      var newTime := now + seconds;
      if newTime < calls[k].time {
        sooner := true;
        Rekey(k, calls[k].(delayedTime := 0.0, time := newTime));
      } else {
        Postpone(k, newTime - calls[k].time);
      }
      return Done, sooner;
    }

    /** `delay`. */
    method DoDelay(k: nat, seconds: real) returns (s: Status, sooner: bool)
      requires Valid() && k < |calls|
      modifies this`calls, this`heap
      ensures Valid() && s == old(StatusOf(k)) && multiset(heap) == multiset(old(heap)) && |calls| == |old(calls)|
      ensures var due := old(calls)[k].GetTime() + seconds;
              View(calls) == if s.Done? then View(old(calls))[k := Some(due)] else View(old(calls))
      ensures (calls, s.Done?) == Effect(old(calls), Delay(k, seconds))
      ensures sooner <==> s.Done? && old(calls)[k].delayedTime + seconds < 0.0
      ensures SameButTimes(old(calls), calls)
      ensures forall c :: 0 <= c < |calls| && (c != k || !sooner) ==> calls[c].time == old(calls)[c].time
      ensures !sooner ==> heap == old(heap)
    {
      hide Books, HeapOrder;
      sooner := false;
      if calls[k].cancelled {
        return AlreadyCancelled, false;
      } else if calls[k].called {
        return AlreadyCalled, false;
      }
      var delayedTime := calls[k].delayedTime + seconds;
      if delayedTime < 0.0 {
        sooner := true;
        Rekey(k, calls[k].(delayedTime := delayedTime).ActivateDelay());
      } else {
        Postpone(k, delayedTime);
      }
      return Done, sooner;
    }

    /** Only `delayed_time` changes: the key stays. */
    method Postpone(k: nat, delayedTime: real)
      requires Valid() && k < |calls| && calls[k].Active() && delayedTime >= 0.0
      modifies this`calls
      ensures Valid() && calls == old(calls)[k := old(calls)[k].(delayedTime := delayedTime)]
    {
      hide Books;
      var c := calls[k].(delayedTime := delayedTime);
      RetimeBooks(Bag(), calls, cancellations + missed, history, k, c);
      KeysKept(heap, calls, calls[k := c]);
      calls := calls[k := c];
    }

    /** Store an earlier key, then `self.resetter(self)`. */
    method Rekey(k: nat, c: Call)
      requires Valid() && k < |calls| && calls[k].Active()
      requires c.time <= calls[k].time && c.delayedTime == 0.0 && c.Active()
      modifies this`calls, this`heap
      ensures Valid() && calls == old(calls)[k := c] && multiset(heap) == multiset(old(heap))
    {
      hide Books, EarlyAt, HeapOrder;
      RekeyKeeps(k, c);
      calls := calls[k := c];
      MoveCallLaterSooner(k);
      assert Bag() == old(Bag());
    }

    lemma RekeyKeeps(k: nat, c: Call)
      requires Valid() && k < |calls| && calls[k].Active()
      requires c.time <= calls[k].time && c.delayedTime == 0.0 && c.Active()
      ensures Books(Bag(), calls[k := c], cancellations + missed, history)
      ensures k !in heap ==> HeapOrder(heap, calls[k := c])
      ensures forall pos :: 0 <= pos < |heap| && heap[pos] == k ==> EarlyAt(heap, calls[k := c], pos)
    {
      HeapOnce();
      hide Books, HeapOrder, EarlyAt;
      RetimeBooks(Bag(), calls, cancellations + missed, history, k, c);
      EarlierIsEarly(heap, calls, calls[k := c], k);
    }

    /** `getDelayedCalls`: exactly the calls that are outstanding, each once. */
    method GetDelayedCalls() returns (r: seq<nat>)
      requires Valid()
      ensures forall k :: k in r <==> 0 <= k < |calls| && View(calls)[k].Some?
      ensures forall k :: k in r ==> multiset(r)[k] == 1
    {
      r := [];
      var s := heap + staged;
      assert multiset(s) == Bag();
      forall k | k in s
        ensures k in Bag() && k < |calls|
      {
        assert k in multiset(s);
      }
      var i := 0;
      while i < |s|
        invariant 0 <= i <= |s| && multiset(r) <= multiset(s[..i])
        invariant forall k :: k in s[..i] ==> k in s
        invariant forall k :: k in r <==> k in s[..i] && !calls[k].cancelled
      {
        assert s[..i + 1] == s[..i] + [s[i]];
        assert s[i] in multiset(s);
        if !calls[s[i]].cancelled {
          r := r + [s[i]];
        }
        i := i + 1;
      }
      assert s[..i] == s;
      forall k | k in r
        ensures multiset(r)[k] == 1
      {
        assert k in multiset(r) && k in multiset(s);
      }
      forall k | 0 <= k < |calls| && View(calls)[k].Some?
        ensures k in r
      {
        assert k in multiset(s);
      }
    }

    /** `_insertNewDelayedCalls`: the staged calls go into the heap, keyed by when they are due. */
    method InsertNewDelayedCalls()
      requires Valid()
      modifies this`calls, this`heap, this`staged, this`cancellations
      ensures Valid() && staged == [] && View(calls) == View(old(calls)) && SameButTimes(old(calls), calls)
      ensures LaterKeys(old(calls), calls)
      ensures multiset(old(heap)) <= multiset(heap) <= old(Bag())
      ensures old(staged) == [] ==> heap == old(heap) && calls == old(calls) && cancellations == old(cancellations)
    {
      hide Books, HeapOrder, View, SameButTimes, LaterKeys, Between, Both;
      var i := 0;
      ghost var bag := Bag();
      SameIsSame(calls);
      AllBetween(heap, staged);
      assert staged[0..] == staged;
      while i < |staged|
        invariant 0 <= i <= |staged| && staged == old(staged)
        invariant Books(Both(heap, staged[i..]), calls, cancellations + missed, history)
        invariant HeapOrder(heap, calls)
        invariant View(calls) == View(old(calls)) && SameButTimes(old(calls), calls) && LaterKeys(old(calls), calls)
        invariant Between(old(heap), heap, staged[i..], bag)
        invariant i == 0 ==> heap == old(heap) && calls == old(calls) && cancellations == old(cancellations)
      {
        assert staged[i..] == [staged[i]] + staged[i + 1..];
        ghost var before, heap0 := calls, heap;
        InsertOne(staged[i], staged[i + 1..]);
        SameTwice(old(calls), before, calls);
        OneMoreBetween(old(heap), heap0, heap, staged[i], staged[i + 1..], bag);
        i := i + 1;
      }
      assert staged[i..] == [];
      BetweenAtEnd(old(heap), heap, bag);
      staged := [];
    }

    /** One turn of its loop. */
    method InsertOne(c: nat, ghost rest: seq<nat>)
      requires Books(Both(heap, [c] + rest), calls, cancellations + missed, history)
      requires HeapOrder(heap, calls)
      modifies this`calls, this`heap, this`cancellations
      ensures Books(Both(heap, rest), calls, cancellations + missed, history) && HeapOrder(heap, calls)
      ensures View(calls) == View(old(calls)) && SameButTimes(old(calls), calls) && LaterKeys(old(calls), calls)
      ensures multiset(old(heap)) <= multiset(heap) && Both(heap, rest) <= Both(old(heap), [c] + rest)
    {
      hide Books, HeapOrder, Both, View, SameButTimes, LaterKeys;
      SameIsSame(calls);
      OneStored(heap, c, rest, calls, cancellations + missed, history);
      if calls[c].cancelled {
        DropOne(heap, c, rest, calls, cancellations + missed, history);
        cancellations := cancellations - 1;
      } else {
        ActivateOne(heap, c, rest, calls, cancellations + missed, history);
        ghost var heap0 := heap;
        calls := calls[c := calls[c].ActivateDelay()];
        heap := HeapPush(heap, calls, c);
        OneMovedOver(heap0, heap, c, rest);
      }
    }

    /** `timeout`: how long the reactor may sleep. It never sleeps past any outstanding call, nor
        longer than an `epoll_wait` can, and without calls it sleeps as long as it likes. */
    method Timeout(now: real) returns (delay: Option<real>)
      requires Valid()
      modifies this`calls, this`heap, this`staged, this`cancellations
      ensures Valid() && staged == [] && View(calls) == View(old(calls)) && SameButTimes(old(calls), calls)
      ensures LaterKeys(old(calls), calls)
      ensures delay == SleepAt(now)
      ensures forall c :: c in heap ==> Key(calls, heap[0]) <= Key(calls, c)
      ensures delay.None? ==> forall k :: 0 <= k < |calls| ==> View(calls)[k] == None
      ensures delay.Some? ==> 0.0 <= delay.value <= LONGEST
      ensures delay.Some? ==> forall k :: 0 <= k < |calls| && View(calls)[k].Some? ==>
                                now + delay.value <= if View(calls)[k].value > now then View(calls)[k].value else now
      ensures delay.Some? ==> forall k :: 0 <= k < |calls| && calls[k].Active() ==>
                                now + delay.value <= if calls[k].time > now then calls[k].time else now
      ensures multiset(heap) <= old(Bag())
      ensures old(staged) == [] ==> heap == old(heap) && calls == old(calls) && cancellations == old(cancellations)
    {
      InsertNewDelayedCalls();
      RootIsBound();
      RootIsLeast();
      hide Books, HeapOrder;
      if heap == [] {
        return None;
      }
      var wait := Key(calls, heap[0]) - now;
      var capped := if wait < LONGEST then wait else LONGEST;
      delay := Some(if capped > 0.0 then capped else 0.0);
    }

    /** How long to sleep once all is inserted: until the earliest key in the heap. */
    ghost function SleepAt(now: real): Option<real>
      reads this`calls, this`heap
    {
      if heap == [] then None else Some(Clamped(Key(calls, heap[0]) - now))
    }

    lemma RootIsLeast()
      requires HeapOrder(heap, calls)
      ensures forall c :: c in heap ==> Key(calls, heap[0]) <= Key(calls, c)
    {
      forall c | c in heap
        ensures Key(calls, heap[0]) <= Key(calls, c)
      {
        var j :| 0 <= j < |heap| && heap[j] == c;
        RootIsEarliest(heap, calls, j);
      }
    }

    lemma RootIsBound()
      requires Valid() && staged == []
      ensures forall k :: 0 <= k < |calls| && calls[k].Active() ==>
                heap != [] && Key(calls, heap[0]) <= calls[k].time <= calls[k].GetTime()
    {
      forall k | 0 <= k < |calls| && calls[k].Active()
        ensures heap != [] && Key(calls, heap[0]) <= calls[k].time <= calls[k].GetTime()
      {
        assert k in Bag() && k in multiset(heap);
        var j :| 0 <= j < |heap| && heap[j] == k;
        RootIsEarliest(heap, calls, j);
      }
    }

    /** A callback: its operations in order, up to the first that raises; the reactor logs that
        and goes on. The calls it makes are staged. */
    method RunCallback(func: seq<Op>)
      requires Valid()
      modifies this`calls, this`heap, this`staged, this`cancellations
      ensures Valid() && multiset(heap) == multiset(old(heap)) && SameRuns(old(calls), calls)
      ensures calls == Effects(old(calls), func) && staged == old(staged) + Numbers(|old(calls)|, |calls|)
      ensures func == [] ==> heap == old(heap) && cancellations == old(cancellations)
      decreases |func|
    {
      hide Books, HeapOrder, View, Effect;
      if func != [] {
        ghost var calls0, staged0 := calls, staged;
        var ok := Perform(func[0]);
        assert staged == staged0 + Numbers(|calls0|, |calls|);
        if ok {
          ghost var calls1 := calls;
          RunCallback(func[1..]);
          NumbersJoin(staged0, |calls0|, |calls1|, |calls|);
        }
      }
    }

    lemma NumbersJoin(s: seq<nat>, a: nat, b: nat, c: nat)
      requires a <= b <= c
      ensures s + Numbers(a, b) + Numbers(b, c) == s + Numbers(a, c) && s + Numbers(a, a) == s
    {
    }

    method Perform(op: Op) returns (ok: bool)
      requires Valid()
      modifies this`calls, this`heap, this`staged, this`cancellations
      ensures Valid() && multiset(heap) == multiset(old(heap)) && SameRuns(old(calls), calls)
      ensures (calls, ok) == Effect(old(calls), op)
      ensures |old(calls)| <= |calls| <= |old(calls)| + 1
      ensures staged == old(staged) + if |calls| > |old(calls)| then [|old(calls)|] else []
    {
      hide Books, HeapOrder, View, SameButTimes, SameRuns, ResetTo, DelayedBy;
      EffectKeepsRuns(calls, op);
      match op {
        case CallLater(now, seconds, func) =>
          var r := DoCallLater(now, seconds, func);
          ok := r.Some?;
        case Cancel(k) =>
          ok := k < |calls|;
          if ok {
            var s := DoCancel(k);
            ok := s.Done?;
          }
        case Reset(k, now, seconds) =>
          ok := k < |calls|;
          if ok {
            var s, _ := DoReset(k, now, seconds);
            ok := s.Done?;
          }
        case Delay(k, seconds) =>
          ok := k < |calls|;
          if ok {
            var s, _ := DoDelay(k, seconds);
            ok := s.Done?;
          }
      }
    }

    // -------------------------------------------------------------- one pass of runUntilCurrent

    /** The earliest call, taken off the heap. */
    method PopRoot() returns (c: nat)
      requires Valid() && heap != []
      modifies this`heap
      ensures c == old(heap)[0] && c < |calls| && Books(Bag() + multiset{c}, calls, cancellations + missed, history)
      ensures HeapOrder(heap, calls) && multiset(old(heap)) == multiset(heap) + multiset{c} && |heap| == |old(heap)| - 1
      ensures c !in heap && forall d :: d in heap ==> d in old(heap) && Key(calls, c) <= Key(calls, d)
    {
      HeapOnce();
      hide Books;
      ghost var was := heap;
      c, heap := HeapPop(heap, calls);
      assert Bag() + multiset{c} == old(Bag());
      forall d | d in heap
        ensures d in was && Key(calls, c) <= Key(calls, d)
      {
        assert d in multiset(heap) && d in multiset(was);
        var j :| 0 <= j < |was| && was[j] == d;
        RootIsEarliest(was, calls, j);
      }
      assert multiset(was)[c] == multiset(heap)[c] + 1;
      assert c !in multiset(heap);
    }

    method DropCancelled(c: nat)
      requires Books(Bag() + multiset{c}, calls, cancellations + missed, history) && HeapOrder(heap, calls)
      requires c < |calls| && calls[c].cancelled
      modifies this`cancellations
      ensures Valid()
    {
      hide HeapOrder;
      DropBooks(Bag() + multiset{c}, calls, cancellations + missed, history, c);
      cancellations := cancellations - 1;
      assert Bag() + multiset{c} - multiset{c} == Bag();
    }

    /** A postponed call goes back under the key it is really due at. */
    method PushBack(c: nat)
      requires Books(Bag() + multiset{c}, calls, cancellations + missed, history) && HeapOrder(heap, calls)
      requires c < |calls| && c !in heap && calls[c].Active()
      modifies this`calls, this`heap
      ensures Valid() && calls == old(calls)[c := old(calls)[c].ActivateDelay()]
      ensures multiset(heap) == multiset(old(heap)) + multiset{c} && |heap| == |old(heap)| + 1
      ensures forall d :: d in heap ==> d == c || d in old(heap)
    {
      hide HeapOrder, Flags, Stored, Ledger, CancelledIn;
      assert calls[c].delayedTime >= 0.0 by {
        DelaysNonNegative(Bag() + multiset{c}, calls);
      }
      RetimeBooks(Bag() + multiset{c}, calls, cancellations + missed, history, c, calls[c].ActivateDelay());
      KeysKept(heap, calls, calls[c := calls[c].ActivateDelay()]);
      calls := calls[c := calls[c].ActivateDelay()];
      heap := HeapPush(heap, calls, c);
      assert Bag() == old(Bag()) + multiset{c};
      assert forall d :: d in heap ==> d in multiset(heap);
    }

    lemma DelaysNonNegative(bag: multiset<nat>, cs: seq<Call>)
      requires Flags(bag, cs)
      ensures forall c :: 0 <= c < |cs| ==> cs[c].delayedTime >= 0.0
    {
    }

    /** A due call runs: it is marked first, so that its callback cannot cancel or move it. */
    method RunCall(c: nat, now: real)
      requires Books(Bag() + multiset{c}, calls, cancellations + missed, history) && HeapOrder(heap, calls)
      requires c < |calls| && c !in heap && calls[c].Active() && calls[c].GetTime() <= now
      modifies this`calls, this`heap, this`staged, this`cancellations, this`history
      ensures Valid() && multiset(heap) == multiset(old(heap)) && |heap| == |old(heap)|
      ensures history == old(history) + [Ran(c, old(calls)[c].GetTime(), now)]
      ensures SameRuns(old(calls)[c := old(calls)[c].(called := true)], calls)
      ensures calls == Effects(old(calls)[c := old(calls)[c].(called := true)], old(calls)[c].func)
      ensures staged == old(staged) + Numbers(|old(calls)|, |calls|)
      ensures old(calls)[c].func == [] ==> heap == old(heap)
    {
      hide HeapOrder, Flags, Stored, Ledger, CancelledIn;
      RunBooks(Bag() + multiset{c}, calls, cancellations + missed, history, c, now);
      KeysKept(heap, calls, calls[c := calls[c].(called := true)]);
      history := history + [Ran(c, calls[c].GetTime(), now)];
      calls := calls[c := calls[c].(called := true)];
      assert Bag() + multiset{c} - multiset{c} == Bag();
      RunCallback(calls[c].func);
      assert |multiset(heap)| == |multiset(old(heap))|;
    }

    ghost function Postponed(): set<nat>
      reads this`calls, this`heap
    {
      set c | c in heap && c < |calls| && calls[c].delayedTime > 0.0
    }

    /** Nothing outstanding in the heap is due at `now`. */
    ghost predicate NoneDue(now: real)
      reads this`calls, this`heap
    {
      forall c :: c in heap && c < |calls| && calls[c].Active() ==> calls[c].GetTime() > now
    }

    /** The timer half of `runUntilCurrent`. The loop ends because each turn takes a call off the
        heap, or makes one of them stop being postponed, whatever the callbacks do. */
    method RunDue(now: real) returns (ghost moves: seq<Move>)
      requires Valid()
      modifies this`calls, this`heap, this`staged, this`cancellations, this`history
      ensures Valid() && NoneDue(now) && old(history) <= history
      ensures forall i :: |old(history)| <= i < |history| ==> history[i].now == now
      ensures calls == Replay(old(calls), moves) && CallsOf(history[|old(history)|..]) == RunBy(moves)
      ensures |old(calls)| <= |calls| && staged == old(staged) + Numbers(|old(calls)|, |calls|)
      ensures Passive(old(calls)) && old(staged) == [] ==>
                InOrderOfTime(history[|old(history)|..])
                && RanDue(View(old(calls)), now, View(calls), history[|old(history)|..])
    {
      hide Books, HeapOrder, SoFar, Passive, NoneDue, RanDue, Replay, RunBy, CallsOf, Moved, View;
      ghost var v0, h0 := View(calls), history;
      ghost var passive := Passive(calls) && staged == [];
      moves := [];
      NoMoves(calls);
      NothingSoFar(now, calls, heap);
      assert history[|h0|..] == [];
      NumbersJoin(staged, |calls|, |calls|, |calls|);
      while heap != [] && Key(calls, heap[0]) <= now
        invariant Valid() && h0 <= history
        invariant forall i :: |h0| <= i < |history| ==> history[i].now == now
        invariant calls == Replay(old(calls), moves) && CallsOf(history[|h0|..]) == RunBy(moves)
        invariant |old(calls)| <= |calls| && staged == old(staged) + Numbers(|old(calls)|, |calls|)
        invariant passive ==> staged == [] && Passive(calls) && SoFar(v0, now, calls, heap, history[|h0|..])
        decreases |heap|, |Postponed()|
      {
        ghost var before, made := history, |calls|;
        ghost var move := Turn(now, v0, |h0|, passive);
        OneMoreMove(old(calls), moves, move, before[|h0|..], history[|h0|..]);
        NumbersJoin(old(staged), |old(calls)|, made, |calls|);
        moves := moves + [move];
      }
      NoneLeftDue(now);
      if passive {
        RanThemAll(v0, now, history[|h0|..]);
      }
    }

    lemma NoneLeftDue(now: real)
      requires Valid() && (heap == [] || Key(calls, heap[0]) > now)
      ensures NoneDue(now)
    {
      HeapOnce();
      forall c | c in heap && c < |calls| && calls[c].Active()
        ensures calls[c].GetTime() > now
      {
        var j :| 0 <= j < |heap| && heap[j] == c;
        RootIsEarliest(heap, calls, j);
        DelaysNonNegative(Bag(), calls);
      }
    }

    lemma RanThemAll(v0: seq<Option<real>>, now: real, ran: seq<Ran>)
      requires Valid() && NoneDue(now) && staged == [] && SoFar(v0, now, calls, heap, ran)
      ensures InOrderOfTime(ran) && RanDue(v0, now, View(calls), ran)
    {
      AllDueRan(Bag(), calls, heap, v0, now, ran);
    }

    /** One turn of the loop. */
    method Turn(now: real, ghost v0: seq<Option<real>>, ghost from: nat, ghost passive: bool)
      returns (ghost move: Move)
      requires Valid() && heap != [] && Key(calls, heap[0]) <= now && from <= |history|
      requires passive ==> staged == [] && Passive(calls) && SoFar(v0, now, calls, heap, history[from..])
      modifies this`calls, this`heap, this`staged, this`cancellations, this`history
      ensures Valid() && calls == Moved(old(calls), move) && (move.Run? ==> move.c < |old(calls)|)
      ensures history == old(history) + if move.Run? then [Ran(move.c, old(calls)[move.c].GetTime(), now)] else []
      ensures |old(calls)| <= |calls| && staged == old(staged) + Numbers(|old(calls)|, |calls|)
      ensures passive ==> staged == [] && Passive(calls) && SoFar(v0, now, calls, heap, history[from..])
      ensures |heap| < |old(heap)| || (|heap| == |old(heap)| && |Postponed()| < |old(Postponed())|)
    {
      hide Books, HeapOrder, SoFar, Passive, Effects;
      move := Drop;
      NumbersJoin(staged, |calls|, |calls|, |calls|);
      ghost var calls0, heap0 := calls, heap;
      var c := PopRoot();
      if calls[c].cancelled {
        DropCancelled(c);
        if passive {
          StillSoFar(v0, now, calls0, heap0, calls, heap, history[from..]);
        }
      } else if calls[c].delayedTime > 0.0 {
        NotRunYet(c);
        PushBack(c);
        move := Move.Rekey(c);
        if passive {
          PushedBack(v0, now, calls0, heap0, c, history[from..]);
        }
        FewerPostponed(calls0, heap0, c);
      } else {
        NotRunYet(c);
        DueNow(c);
        move := Run(c);
        RunTurn(c, now, v0, heap0, from, passive);
      }
    }

    /** The last branch of the turn. */
    method RunTurn(c: nat, now: real, ghost v0: seq<Option<real>>, ghost heap0: seq<nat>, ghost from: nat,
          ghost passive: bool)
      requires Books(Bag() + multiset{c}, calls, cancellations + missed, history) && HeapOrder(heap, calls)
      requires c < |calls| && c !in heap && calls[c].Active() && calls[c].delayedTime == 0.0 && calls[c].time <= now
      requires c in heap0 && forall d :: d in heap ==> d in heap0 && Key(calls, c) <= Key(calls, d)
      requires from <= |history|
      requires passive ==> staged == [] && Passive(calls) && SoFar(v0, now, calls, heap0, history[from..])
      modifies this`calls, this`heap, this`staged, this`cancellations, this`history
      ensures Valid() && |heap| == |old(heap)| && calls == Moved(old(calls), Run(c))
      ensures history == old(history) + [Ran(c, old(calls)[c].GetTime(), now)]
      ensures |old(calls)| <= |calls| && staged == old(staged) + Numbers(|old(calls)|, |calls|)
      ensures passive ==> staged == [] && Passive(calls) && SoFar(v0, now, calls, heap, history[from..])
    {
      hide Books, HeapOrder, SoFar, Effects;
      ghost var calls0, was := calls, history[from..];
      RunCall(c, now);
      if passive {
        NoEffect(calls0[c := calls0[c].(called := true)]);
        RanOne(v0, now, calls0, heap0, calls, heap, was, c);
        assert history[from..] == was + [Ran(c, calls0[c].GetTime(), now)];
      }
    }

    lemma PushedBack(v0: seq<Option<real>>, now: real, calls0: seq<Call>, heap0: seq<nat>, c: nat, ran: seq<Ran>)
      requires SoFar(v0, now, calls0, heap0, ran) && Passive(calls0) && c < |calls0| && c in heap0
      requires calls0[c].delayedTime > 0.0 && calls == calls0[c := calls0[c].ActivateDelay()]
      requires forall d :: d in heap ==> d == c || d in heap0
      ensures SoFar(v0, now, calls, heap, ran) && Passive(calls)
    {
      StillSoFar(v0, now, calls0, heap0, calls, heap, ran);
    }

    lemma NotRunYet(c: nat)
      requires Books(Bag() + multiset{c}, calls, cancellations + missed, history) && c < |calls|
      ensures !calls[c].called
    {
      assert c in Bag() + multiset{c};
    }

    lemma DueNow(c: nat)
      requires Books(Bag() + multiset{c}, calls, cancellations + missed, history)
      requires c < |calls| && calls[c].delayedTime <= 0.0
      ensures calls[c].delayedTime == 0.0
    {
    }

    lemma FewerPostponed(calls0: seq<Call>, heap0: seq<nat>, c: nat)
      requires multiset(heap) == multiset(heap0) && c in heap0 && c < |calls0| && calls0[c].delayedTime > 0.0
      requires calls == calls0[c := calls0[c].ActivateDelay()]
      ensures |Postponed()| < |set d | d in heap0 && d < |calls0| && calls0[d].delayedTime > 0.0|
    {
      var before := set d | d in heap0 && d < |calls0| && calls0[d].delayedTime > 0.0;
      assert forall d :: d in heap <==> d in multiset(heap);
      assert forall d :: d in heap0 <==> d in multiset(heap0);
      assert Postponed() == before - {c};
    }

    /** When many cancelled calls pile up, the heap is rebuilt without them, and the count starts
        again from 0: then it is right exactly if no call in the staging list is cancelled. */
    method Compact()
      requires Valid()
      modifies this`heap, this`cancellations, this`missed
      ensures Valid() && multiset(heap) <= multiset(old(heap)) && staged == old(staged)
      ensures if old(cancellations) > 50 && old(cancellations) > |old(heap)| / 2
              then cancellations == 0 && missed == |CancelledIn(multiset(staged), calls)|
                   && forall c :: c in heap && c < |calls| ==> !calls[c].cancelled
              else cancellations == old(cancellations) && missed == old(missed) && heap == old(heap)
      ensures old(cancellations) > 50 && old(cancellations) > |old(heap)| / 2 ==>
                (cancellations == CancelledStored() <==> forall c :: c in staged && c < |calls| ==> !calls[c].cancelled)
    {
      hide Books, HeapOrder, CancelledIn;
      if cancellations > 50 && cancellations > |heap| / 2 {
        var kept := NotCancelled();
        KeptBooks(kept);
        cancellations := 0;
        missed := |CancelledIn(multiset(staged), calls)|;
        heap := Heapify(kept, calls);
        assert Bag() == multiset(kept) + multiset(staged);
        forall c | c in heap
          ensures c in kept
        {
          assert c in multiset(heap);
        }
        NoneStaged();
        CountIsLowerBound();
      }
    }

    lemma NoneStaged()
      ensures |CancelledIn(multiset(staged), calls)| == 0
              <==> forall c :: c in staged && c < |calls| ==> !calls[c].cancelled
    {
      var found := CancelledIn(multiset(staged), calls);
      assert forall c :: c in staged ==> c in multiset(staged);
      assert |found| == 0 <==> found == {};
      if found == {} {
        forall c | c in staged && c < |calls|
          ensures !calls[c].cancelled
        {
          assert c !in found;
        }
      }
    }

    method NotCancelled() returns (kept: seq<nat>)
      requires Valid()
      ensures multiset(kept) <= multiset(heap)
      ensures forall c :: c in heap && c < |calls| && !calls[c].cancelled ==> c in kept
      ensures forall c :: c in kept && c < |calls| ==> !calls[c].cancelled
    {
      HeapOnce();
      hide Books, HeapOrder;
      kept := [];
      var i := 0;
      while i < |heap|
        invariant 0 <= i <= |heap| && multiset(kept) <= multiset(heap[..i])
        invariant forall c :: c in heap[..i] && c < |calls| && !calls[c].cancelled ==> c in kept
        invariant forall c :: c in kept && c < |calls| ==> !calls[c].cancelled
      {
        assert heap[..i + 1] == heap[..i] + [heap[i]];
        assert heap[i] in heap;
        if !calls[heap[i]].cancelled {
          kept := kept + [heap[i]];
        }
        i := i + 1;
      }
      assert heap[..i] == heap;
    }

    lemma KeptBooks(kept: seq<nat>)
      requires Valid() && multiset(kept) <= multiset(heap)
      requires forall c :: c in heap && c < |calls| && !calls[c].cancelled ==> c in kept
      requires forall c :: c in kept && c < |calls| ==> !calls[c].cancelled
      ensures Books(multiset(kept) + multiset(staged), calls, |CancelledIn(multiset(staged), calls)|, history)
    {
      var bag := multiset(kept) + multiset(staged);
      forall c | c in bag
        ensures bag[c] == 1 && c in Bag()
      {
        assert bag[c] <= Bag()[c];
        assert c in Bag();
      }
      forall c | 0 <= c < |calls| && calls[c].Active()
        ensures c in bag
      {
        assert c in Bag();
        if c in multiset(heap) {
          assert c in heap && c in multiset(kept);
        }
      }
      assert forall c :: c in kept <==> c in multiset(kept);
      assert CancelledIn(bag, calls) == CancelledIn(multiset(staged), calls);
    }

    lemma StillNoneDue(now: real)
      requires NoneDue(now)
      ensures forall h: seq<nat> :: multiset(h) <= multiset(heap) ==>
                forall c :: c in h && c < |calls| && calls[c].Active() ==> calls[c].GetTime() > now
    {
      forall h: seq<nat>, c | multiset(h) <= multiset(heap) && c in h && c < |calls| && calls[c].Active()
        ensures calls[c].GetTime() > now
      {
        assert c in multiset(h) && c in multiset(heap);
      }
    }

    /** `_cancellations` is right, or too low. */
    lemma CountIsLowerBound()
      requires Valid()
      ensures cancellations + missed == CancelledStored()
      ensures cancellations <= CancelledStored() && (cancellations == CancelledStored() <==> missed == 0)
    {
    }

    /** The timed half of `runUntilCurrent`. */
    method RunUntilCurrent(now: real) returns (ghost inserted: seq<Call>, ghost moves: seq<Move>)
      requires Valid()
      modifies this`calls, this`heap, this`staged, this`cancellations, this`missed, this`history
      ensures Valid() && NoneDue(now) && old(history) <= history
      ensures missed == old(missed) || (cancellations == 0 && missed == |CancelledIn(multiset(staged), calls)|)
      ensures forall i :: |old(history)| <= i < |history| ==> history[i].now == now
      ensures SameButTimes(old(calls), inserted) && View(inserted) == View(old(calls))
      ensures calls == Replay(inserted, moves) && CallsOf(history[|old(history)|..]) == RunBy(moves)
      ensures |old(calls)| <= |calls| && staged == Numbers(|old(calls)|, |calls|)
      ensures cancellations <= 50 || cancellations <= |heap| / 2
      ensures forall c :: 0 <= c < |old(calls)| && calls[c].Active() ==> calls[c].GetTime() > now
      ensures Passive(old(calls)) ==>
                InOrderOfTime(history[|old(history)|..])
                && RanDue(View(old(calls)), now, View(calls), history[|old(history)|..])
    {
      hide Books, HeapOrder, RanDue, InOrderOfTime, CancelledIn, View, Replay, RunBy, CallsOf;
      InsertNewDelayedCalls();
      inserted := calls;
      assert SameButTimes(old(calls), calls) && (Passive(old(calls)) ==> Passive(calls));
      moves := RunDue(now);
      assert [] + staged == staged;
      OldOnesInHeap(now, |old(calls)|);
      StillNoneDue(now);
      Compact();
    }

    /** An outstanding call that the pass did not make is in the heap, and so not due. */
    lemma OldOnesInHeap(now: real, n: nat)
      requires Valid() && NoneDue(now) && n <= |calls| && staged == Numbers(n, |calls|)
      ensures forall c :: 0 <= c < n && calls[c].Active() ==> calls[c].GetTime() > now
    {
      forall c | 0 <= c < n && calls[c].Active()
        ensures calls[c].GetTime() > now
      {
        assert c in Bag() && c !in staged;
        assert c in multiset(heap) && c in heap;
      }
    }
  }

  /** Whatever the callbacks did: a call that is logged was run, once, when it was due, and it was
      not cancelled. */
  lemma WhatRanWasDue(r: Reactor, i: nat)
    requires r.Valid() && i < |r.history|
    ensures var ran := r.history[i];
            && ran.call < |r.calls| && r.calls[ran.call].called && !r.calls[ran.call].cancelled
            && r.calls[ran.call].GetTime() == ran.due <= ran.now
            && forall j :: 0 <= j < |r.history| && j != i ==> r.history[j].call != ran.call
  {
    assert HasRun(r.history, r.history[i].call);
  }

  /** No callback that is still to run does anything to the reactor. */
  predicate Passive(calls: seq<Call>) { forall c :: 0 <= c < |calls| && calls[c].Active() ==> calls[c].func == [] }

  predicate InOrderOfTime(ran: seq<Ran>) { forall i, j :: 0 <= i < j < |ran| ==> ran[i].due <= ran[j].due }

  /** From the due times `v0` to `v1`, exactly the calls due at `now` have run, each when it was due. */
  ghost predicate RanDue(v0: seq<Option<real>>, now: real, v1: seq<Option<real>>, ran: seq<Ran>) {
    && |v1| == |v0|
    && (forall c :: 0 <= c < |v0| ==> v1[c] == if v0[c].Some? && v0[c].value <= now then None else v0[c])
    && (forall i :: 0 <= i < |ran| ==> ran[i].call < |v0| && v0[ran[i].call] == Some(ran[i].due) && ran[i].due <= now)
    && (forall c :: 0 <= c < |v0| && v0[c].Some? && v0[c].value <= now ==> HasRun(ran, c))
  }

  /** A pass with passive callbacks, in the middle. */
  ghost predicate SoFar(v0: seq<Option<real>>, now: real, calls: seq<Call>, heap: seq<nat>, ran: seq<Ran>) {
    && |calls| == |v0|
    && (forall c :: 0 <= c < |v0| ==> Due(calls[c]) == v0[c] || (v0[c].Some? && HasRun(ran, c) && calls[c].called))
    && (forall i :: 0 <= i < |ran| ==> ran[i].call < |v0| && v0[ran[i].call] == Some(ran[i].due) && ran[i].due <= now)
    && InOrderOfTime(ran)
    && (forall i, c :: 0 <= i < |ran| && c in heap ==> ran[i].due <= Key(calls, c))
  }

  lemma NothingSoFar(now: real, calls: seq<Call>, heap: seq<nat>)
    ensures SoFar(View(calls), now, calls, heap, [])
  {
  }

  lemma StillSoFar(v0: seq<Option<real>>, now: real, calls0: seq<Call>, heap0: seq<nat>, calls: seq<Call>,
        heap: seq<nat>, ran: seq<Ran>)
    requires SoFar(v0, now, calls0, heap0, ran) && |calls| == |calls0|
    requires forall c :: 0 <= c < |calls| ==> Due(calls[c]) == Due(calls0[c]) && calls[c].called == calls0[c].called
    requires forall c :: c in heap ==> c in heap0
    requires forall c :: 0 <= c < |calls| ==> calls0[c].time <= calls[c].time
    ensures SoFar(v0, now, calls, heap, ran)
  {
  }

  lemma RanOne(v0: seq<Option<real>>, now: real, calls0: seq<Call>, heap0: seq<nat>, calls: seq<Call>,
        heap: seq<nat>, ran: seq<Ran>, c: nat)
    requires SoFar(v0, now, calls0, heap0, ran) && c in heap0 && c < |calls0| && calls0[c].Active()
    requires calls0[c].delayedTime == 0.0 && calls0[c].time <= now
    requires calls == calls0[c := calls0[c].(called := true)]
    requires forall d :: d in heap ==> d in heap0 && Key(calls, d) == Key(calls0, d) && Key(calls0, c) <= Key(calls0, d)
    ensures SoFar(v0, now, calls, heap, ran + [Ran(c, calls0[c].GetTime(), now)])
  {
    var ran' := ran + [Ran(c, calls0[c].GetTime(), now)];
    forall d | 0 <= d < |v0|
      ensures Due(calls[d]) == v0[d] || (v0[d].Some? && HasRun(ran', d) && calls[d].called)
    {
      if d == c {
        assert ran'[|ran|].call == c;
      } else if HasRun(ran, d) {
        var i :| 0 <= i < |ran| && ran[i].call == d;
        assert ran'[i].call == d;
      }
    }
  }

  lemma AllDueRan(bag: multiset<nat>, calls: seq<Call>, heap: seq<nat>, v0: seq<Option<real>>, now: real, ran: seq<Ran>)
    requires SoFar(v0, now, calls, heap, ran) && Flags(bag, calls)
    requires forall c :: c in bag ==> c in heap
    requires forall c :: c in heap && c < |calls| && calls[c].Active() ==> calls[c].GetTime() > now
    ensures RanDue(v0, now, View(calls), ran)
  {
    forall c | 0 <= c < |v0|
      ensures View(calls)[c] == if v0[c].Some? && v0[c].value <= now then None else v0[c]
      ensures v0[c].Some? && v0[c].value <= now ==> HasRun(ran, c)
    {
      if HasRun(ran, c) {
        var i :| 0 <= i < |ran| && ran[i].call == c;
        assert v0[c] == Some(ran[i].due);
      }
    }
  }

  ghost function Both(h: seq<nat>, s: seq<nat>): multiset<nat> { multiset(h) + multiset(s) }

  lemma OneMovedOver(h0: seq<nat>, h: seq<nat>, c: nat, rest: seq<nat>)
    requires multiset(h) == multiset(h0) + multiset{c}
    ensures multiset(h0) <= multiset(h) && Both(h, rest) == Both(h0, [c] + rest)
  {
    assert multiset([c] + rest) == multiset{c} + multiset(rest);
  }

  /** The heap `h` came from `h0`, and all it got, and `rest`, is from the bag. */
  ghost predicate Between(h0: seq<nat>, h: seq<nat>, rest: seq<nat>, bag: multiset<nat>) {
    multiset(h0) <= multiset(h) && Both(h, rest) <= bag
  }

  lemma AllBetween(h: seq<nat>, s: seq<nat>)
    ensures Between(h, h, s, Both(h, s))
  {
  }

  lemma OneMoreBetween(h0: seq<nat>, h1: seq<nat>, h2: seq<nat>, c: nat, rest: seq<nat>, bag: multiset<nat>)
    requires Between(h0, h1, [c] + rest, bag) && multiset(h1) <= multiset(h2)
    requires Both(h2, rest) <= Both(h1, [c] + rest)
    ensures Between(h0, h2, rest, bag)
  {
  }

  lemma BetweenAtEnd(h0: seq<nat>, h: seq<nat>, bag: multiset<nat>)
    requires Between(h0, h, [], bag)
    ensures multiset(h0) <= multiset(h) <= bag
  {
  }

  /** No key became earlier. */
  predicate LaterKeys(a: seq<Call>, b: seq<Call>) {
    |a| == |b| && forall c :: 0 <= c < |a| ==> a[c].time <= b[c].time
  }

  /** Nothing but keys and postponements changed. */
  predicate SameButTimes(a: seq<Call>, b: seq<Call>) {
    |a| == |b| && forall c :: 0 <= c < |a| ==> b[c] == a[c].(time := b[c].time, delayedTime := b[c].delayedTime)
  }

  lemma NoEffect(calls: seq<Call>)
    ensures Effects(calls, []) == calls
  {
  }

  lemma NoMoves(calls: seq<Call>)
    ensures Replay(calls, []) == calls && CallsOf([]) == RunBy([])
  {
  }

  lemma OneMoreMove(calls: seq<Call>, moves: seq<Move>, m: Move, before: seq<Ran>, after: seq<Ran>)
    requires CallsOf(before) == RunBy(moves)
    requires if m.Run? then |after| == |before| + 1 && after[..|before|] == before && after[|before|].call == m.c
             else after == before
    ensures Replay(calls, moves + [m]) == Moved(Replay(calls, moves), m) && CallsOf(after) == RunBy(moves + [m])
  {
    var all := moves + [m];
    assert all[..|all| - 1] == moves;
    if m.Run? {
      assert CallsOf(after) == CallsOf(before) + [m.c];
    }
  }

  lemma SameIsSame(a: seq<Call>)
    ensures SameButTimes(a, a) && LaterKeys(a, a)
  {
  }

  lemma SameTwice(a: seq<Call>, b: seq<Call>, c: seq<Call>)
    requires SameButTimes(a, b) && LaterKeys(a, b) && SameButTimes(b, c) && LaterKeys(b, c)
    ensures SameButTimes(a, c) && LaterKeys(a, c)
  {
  }

  lemma KeysKept(h: seq<nat>, before: seq<Call>, after: seq<Call>)
    requires HeapOrder(h, before) && forall c :: c in h ==> Key(after, c) == Key(before, c)
    ensures HeapOrder(h, after)
  {
    forall j | 0 < j < |h|
      ensures InOrder(h, after, j)
    {
      assert InOrder(h, before, j);
    }
  }

  lemma OneStored(h: seq<nat>, c: nat, rest: seq<nat>, calls: seq<Call>, cancelled: int, history: seq<Ran>)
    requires Books(Both(h, [c] + rest), calls, cancelled, history)
    ensures c !in h && c in Both(h, [c] + rest) && c < |calls| && calls[c].delayedTime >= 0.0
    ensures Both(h, [c] + rest) - multiset{c} == Both(h, rest)
  {
    assert multiset([c] + rest) == multiset{c} + multiset(rest);
    assert c in Both(h, [c] + rest);
    assert Both(h, [c] + rest)[c] == multiset(h)[c] + 1 + multiset(rest)[c];
    assert c !in multiset(h);
  }

  lemma DropOne(h: seq<nat>, c: nat, rest: seq<nat>, calls: seq<Call>, cancelled: int, history: seq<Ran>)
    requires Books(Both(h, [c] + rest), calls, cancelled, history) && c < |calls| && calls[c].cancelled
    ensures Books(Both(h, rest), calls, cancelled - 1, history) && Both(h, rest) <= Both(h, [c] + rest)
  {
    hide Books;
    OneStored(h, c, rest, calls, cancelled, history);
    DropBooks(Both(h, [c] + rest), calls, cancelled, history, c);
  }

  lemma ActivateOne(h: seq<nat>, c: nat, rest: seq<nat>, calls: seq<Call>, cancelled: int, history: seq<Ran>)
    requires Books(Both(h, [c] + rest), calls, cancelled, history) && HeapOrder(h, calls) && c < |calls|
    ensures var calls' := calls[c := calls[c].ActivateDelay()];
            && Books(Both(h, [c] + rest), calls', cancelled, history) && HeapOrder(h, calls')
            && View(calls') == View(calls) && SameButTimes(calls, calls') && LaterKeys(calls, calls')
  {
    hide Books, Both, HeapOrder;
    OneStored(h, c, rest, calls, cancelled, history);
    RetimeBooks(Both(h, [c] + rest), calls, cancelled, history, c, calls[c].ActivateDelay());
    KeysKept(h, calls, calls[c := calls[c].ActivateDelay()]);
  }

  /** Lowering the key of one stored call breaks the order at most where it sits. */
  lemma EarlierIsEarly(h: seq<nat>, before: seq<Call>, after: seq<Call>, c: nat)
    requires HeapOrder(h, before) && (forall d :: d in h ==> multiset(h)[d] == 1)
    requires Key(after, c) <= Key(before, c) && forall d :: d in h && d != c ==> Key(after, d) == Key(before, d)
    ensures c !in h ==> HeapOrder(h, after)
    ensures forall pos :: 0 <= pos < |h| && h[pos] == c ==> EarlyAt(h, after, pos)
  {
    forall pos | 0 <= pos < |h| && h[pos] == c
      ensures EarlyAt(h, after, pos)
    {
      forall j | 0 < j < |h| && j != pos
        ensures InOrder(h, after, j)
      {
        assert InOrder(h, before, j);
        OnlyOnce(h, pos, j);
      }
      forall j | 0 < j < |h| && Parent(j) == pos && pos > 0
        ensures Key(after, h[Parent(pos)]) <= Key(after, h[j])
      {
        assert InOrder(h, before, pos) && InOrder(h, before, j);
        OnlyOnce(h, pos, j);
        OnlyOnce(h, pos, Parent(pos));
      }
    }
    if c !in h {
      forall j | 0 < j < |h|
        ensures InOrder(h, after, j)
      {
        assert InOrder(h, before, j);
      }
    }
  }

  lemma OnlyOnce(h: seq<nat>, i: int, j: int)
    requires 0 <= i < |h| && 0 <= j < |h| && i != j && multiset(h)[h[i]] == 1
    ensures h[i] != h[j]
  {
    var lo, hi := if i < j then i else j, if i < j then j else i;
    assert h == h[..hi] + [h[hi]] + h[hi + 1..];
    assert h[lo] in h[..hi];
    assert multiset(h) == multiset(h[..hi]) + multiset{h[hi]} + multiset(h[hi + 1..]);
  }
}
