/** A run in which a reactor's `_cancellations` falls behind the cancelled calls it stores. */
module CancellationCount {
  import opened Prelude
  import opened ReactorTimers
  import opened TimerHeap

  const SCRIPT: seq<Op> := [CallLater(1.0, 1.0, []), Cancel(52)]

  /** Call 0 runs the script above when it is due at 1; calls 1 to `n` are due at 1000, and those
      before `m` are cancelled. */
  predicate Prepared(calls: seq<Call>, n: nat, m: nat) {
    && |calls| == n + 1 && calls[0] == Call(1.0, 0.0, false, false, SCRIPT)
    && forall k :: 1 <= k <= n ==> calls[k] == Call(1000.0, 0.0, k < m, false, [])
  }

  /** The count does fall behind: 51 calls in the heap are cancelled, then the callback of the first
      call of a pass makes a call and cancels it, and the compaction at the end of the pass misses
      that one in the staging list. */
  method CountFallsBehind() returns (r: Reactor)
    ensures r.Valid() && r.cancellations == 0 && r.CancelledStored() == 1
  {
    hide Books, HeapOrder, View, SameButTimes, LaterKeys, Effects, CancelledIn;
    r := CancelledInHeap();
    TakeFirstTurn(r);
    r.Compact();
    r.CountIsLowerBound();
  }

  /** The loop of the pass at time 2: one call is due. */
  method TakeFirstTurn(r: Reactor)
    requires r.Valid() && Prepared(r.calls, 51, 52) && r.staged == [] && r.missed == 0
    requires |r.heap| <= 52 && forall k :: 0 <= k <= 51 ==> k in r.heap
    modifies r
    ensures r.Valid() && r.missed == 0 && r.cancellations > 50 && |r.heap| <= 51
    ensures |CancelledIn(multiset(r.staged), r.calls)| == 1
  {
    hide Books, HeapOrder, Effects, CancelledIn;
    assert 0 in r.heap;
    ghost var heap0, calls0 := r.heap, r.calls;
    var c := r.PopRoot();
    FirstIsRoot(r, heap0, c);
    r.RunCall(c, 2.0);
    SameElements(heap0, r.heap, 0);
    ScriptMakesOne(calls0, r.calls);
    OneMissed(r);
  }

  /** What leads up to that pass: the calls are made, and inserted. */
  method CallsInHeap() returns (r: Reactor)
    ensures r.Valid() && fresh(r) && Prepared(r.calls, 51, 1) && r.staged == [] && r.missed == 0
    ensures |r.heap| <= 52 && forall k :: 0 <= k <= 51 ==> k in r.heap
  {
    hide Books, HeapOrder, View, SameButTimes, LaterKeys, CancelledIn;
    r := new Reactor();
    var _ := r.DoCallLater(0.0, 1.0, SCRIPT);
    var i := 0;
    while i < 51
      invariant 0 <= i <= 51 && r.Valid() && fresh(r) && Prepared(r.calls, i, 1)
      invariant r.heap == [] && |r.staged| == i + 1 && r.missed == 0
    {
      var _ := r.DoCallLater(0.0, 1000.0, []);
      i := i + 1;
    }
    ghost var calls0, staged0 := r.calls, r.staged;
    r.InsertNewDelayedCalls();
    AllInserted(r, calls0, staged0);
  }

  /** Then all but the first are cancelled. */
  method CancelledInHeap() returns (r: Reactor)
    ensures r.Valid() && fresh(r) && Prepared(r.calls, 51, 52) && r.staged == [] && r.missed == 0
    ensures |r.heap| <= 52 && forall k :: 0 <= k <= 51 ==> k in r.heap
  {
    hide Books, HeapOrder, View, CancelledIn;
    r := CallsInHeap();
    var i := 1;
    while i < 52
      invariant 1 <= i <= 52 && r.Valid() && fresh(r) && Prepared(r.calls, 51, i)
      invariant r.staged == [] && r.missed == 0 && |r.heap| <= 52 && forall k :: 0 <= k <= 51 ==> k in r.heap
    {
      var _ := r.DoCancel(i);
      i := i + 1;
    }
  }

  lemma SameElements(heap0: seq<nat>, heap: seq<nat>, c: nat)
    requires multiset(heap0) == multiset(heap) + multiset{c}
    ensures |heap| == |heap0| - 1 && forall k :: k in heap0 && k != c ==> k in heap
  {
    assert |multiset(heap0)| == |multiset(heap)| + 1;
    forall k | k in heap0 && k != c
      ensures k in heap
    {
      assert k in multiset(heap0) && k in multiset(heap);
    }
  }

  lemma AllInserted(r: Reactor, calls0: seq<Call>, staged0: seq<nat>)
    requires r.Valid() && r.staged == [] && Prepared(calls0, 51, 1) && |staged0| == 52
    requires SameButTimes(calls0, r.calls) && LaterKeys(calls0, r.calls) && View(r.calls) == View(calls0)
    requires multiset(r.heap) <= multiset([]) + multiset(staged0)
    ensures Prepared(r.calls, 51, 1) && |r.heap| <= 52 && forall k :: 0 <= k <= 51 ==> k in r.heap
  {
    var rest := multiset(staged0) - multiset(r.heap);
    assert multiset(r.heap) + rest == multiset(staged0) && |multiset(r.heap)| + |rest| == 52;
    forall k | 0 <= k <= 51
      ensures r.calls[k] == calls0[k] && k in r.heap
    {
      assert View(r.calls)[k] == View(calls0)[k] && Due(calls0[k]) == Some(calls0[k].time);
      assert r.calls[k].delayedTime >= 0.0 && r.calls[k].Active();
      assert k in r.Bag() && k in multiset(r.heap);
    }
  }

  lemma FirstIsRoot(r: Reactor, heap0: seq<nat>, c: nat)
    requires Prepared(r.calls, 51, 52) && c < |r.calls| && 0 in heap0
    requires multiset(heap0) == multiset(r.heap) + multiset{c}
    requires forall d :: d in r.heap ==> Key(r.calls, c) <= Key(r.calls, d)
    ensures c == 0
  {
    SameElements(heap0, r.heap, c);
    assert Key(r.calls, 0) == 1.0;
  }

  /** What the script leaves behind. */
  predicate Scripted(calls: seq<Call>) {
    |calls| == 53 && forall k :: 1 <= k <= 52 ==> calls[k].cancelled
  }

  lemma ScriptMakesOne(before: seq<Call>, after: seq<Call>)
    requires Prepared(before, 51, 52) && after == Effects(before[0 := before[0].(called := true)], SCRIPT)
    ensures Scripted(after)
  {
    var running := before[0 := before[0].(called := true)];
    var made := running + [Call(2.0, 0.0, false, false, [])];
    assert SCRIPT[1..] == [Cancel(52)] && [Cancel(52)][1..] == [];
    assert Effects(running, SCRIPT) == Effects(made, [Cancel(52)]) == made[52 := made[52].(cancelled := true)];
  }

  lemma OneMissed(r: Reactor)
    requires r.Valid() && r.missed == 0 && r.staged == Numbers(52, 53) && Scripted(r.calls)
    requires forall k :: 1 <= k <= 51 ==> k in r.heap
    ensures r.cancellations > 50 && |CancelledIn(multiset(r.staged), r.calls)| == 1
  {
    r.CountIsLowerBound();
    hide Books, HeapOrder;
    assert r.staged == [52];
    assert CancelledIn(multiset(r.staged), r.calls) == {52};
    var some := FirstOnes(51);
    forall k | k in some
      ensures k in CancelledIn(r.Bag(), r.calls)
    {
      assert k in r.heap && k in multiset(r.heap);
    }
    SubsetSize(some, CancelledIn(r.Bag(), r.calls));
  }

  function FirstOnes(n: nat): (s: set<nat>)
    ensures |s| == n && forall k: nat :: k in s <==> 1 <= k <= n
  {
    if n == 0 then {} else FirstOnes(n - 1) + {n}
  }

  lemma SubsetSize<T>(a: set<T>, b: set<T>)
    requires a <= b
    ensures |a| <= |b|
  {
    assert b == a + (b - a);
  }
}
