/** Delayed calls, and a binary heap of them ordered by `time` alone. A call is named by the order
    in which it was made; its record sits in the reactor's table. */
module TimerHeap {
  import opened Prelude

  /** What a callback may do to the reactor, with the clock it reads. */
  datatype Op =
    | CallLater(now: real, seconds: real, func: seq<Op>)
    | Cancel(k: nat)
    | Reset(k: nat, now: real, seconds: real)
    | Delay(k: nat, seconds: real)

  /** `DelayedCall`. */
  datatype Call = Call(time: real, delayedTime: real, cancelled: bool, called: bool, func: seq<Op>) {
    /** `getTime`: when the call is really due. */
    function GetTime(): real { time + delayedTime }

    function ActivateDelay(): Call { this.(time := time + delayedTime, delayedTime := 0.0) }

    predicate Active() { !cancelled && !called }
  }

  function Key(calls: seq<Call>, c: nat): real { if c < |calls| then calls[c].time else 0.0 }

  function Parent(j: int): (i: int)
    requires j > 0
    ensures 0 <= i < j && (j == 2 * i + 1 || j == 2 * i + 2)
  {
    (j - 1) / 2
  }

  /** The entry at `j` is not before its parent. */
  predicate InOrder(h: seq<nat>, calls: seq<Call>, j: int)
    requires 0 < j < |h|
  {
    Key(calls, h[Parent(j)]) <= Key(calls, h[j])
  }

  /** The subtrees rooted at `k` and later are heaps. */
  ghost predicate HeapFrom(h: seq<nat>, calls: seq<Call>, k: int) {
    forall j :: 0 < j < |h| && Parent(j) >= k ==> InOrder(h, calls, j)
  }

  ghost predicate HeapOrder(h: seq<nat>, calls: seq<Call>) { HeapFrom(h, calls, 0) }

  /** Nothing is before the root. */
  lemma {:induction false} RootIsEarliest(h: seq<nat>, calls: seq<Call>, j: int)
    requires HeapOrder(h, calls) && 0 <= j < |h|
    ensures Key(calls, h[0]) <= Key(calls, h[j])
    decreases j
  {
    if j > 0 {
      RootIsEarliest(h, calls, Parent(j));
      assert InOrder(h, calls, j);
    }
  }

  /** The order is broken at most at `pos`, whose entry may be too early for its parent. */
  ghost predicate EarlyAt(h: seq<nat>, calls: seq<Call>, pos: int) {
    && 0 <= pos < |h|
    && (forall j :: 0 < j < |h| && j != pos ==> InOrder(h, calls, j))
    && (forall j :: 0 < j < |h| && Parent(j) == pos && pos > 0 ==> Key(calls, h[Parent(pos)]) <= Key(calls, h[j]))
  }

  /** The loop of `_moveCallLaterSooner`, which is also the sift of `heappush`: parents move down
      into the hole until the entry rests. */
  method SiftUp(heap: seq<nat>, calls: seq<Call>, at: int) returns (h: seq<nat>)
    requires EarlyAt(heap, calls, at)
    ensures HeapOrder(h, calls) && multiset(h) == multiset(heap) && |h| == |heap|
  {
    h := heap;
    var pos := at;
    var elt := h[pos];
    assert h[pos := elt] == h;
    while pos != 0
      invariant 0 <= pos < |h| == |heap|
      invariant EarlyAt(h[pos := elt], calls, pos) && multiset(h[pos := elt]) == multiset(heap)
      decreases pos
    {
      var parent := (pos - 1) / 2;
      if Key(calls, h[parent]) <= Key(calls, elt) {
        break;
      }
      ghost var before := h[pos := elt];
      h := h[pos := h[parent]];
      SwapKeepsMultiset(before, h[parent := elt], parent, pos);
      MovedDown(before, h[parent := elt], calls, pos);
      pos := parent;
    }
    h := h[pos := elt];
  }

  lemma SwapKeepsMultiset<T>(a: seq<T>, b: seq<T>, i: int, j: int)
    requires 0 <= i < j < |a| && b == a[i := a[j]][j := a[i]]
    ensures multiset(b) == multiset(a)
  {
    assert a == a[..i] + [a[i]] + a[i + 1..j] + [a[j]] + a[j + 1..];
    assert b == a[..i] + [a[j]] + a[i + 1..j] + [a[i]] + a[j + 1..];
  }

  lemma MovedDown(a: seq<nat>, b: seq<nat>, calls: seq<Call>, pos: int)
    requires EarlyAt(a, calls, pos) && pos > 0 && Key(calls, a[pos]) < Key(calls, a[Parent(pos)])
    requires b == a[Parent(pos) := a[pos]][pos := a[Parent(pos)]]
    ensures EarlyAt(b, calls, Parent(pos))
  {
    var parent := Parent(pos);
    forall j | 0 < j < |b| && j != parent
      ensures InOrder(b, calls, j)
    {
      assert j != pos ==> InOrder(a, calls, j);
    }
    forall j | 0 < j < |b| && Parent(j) == parent && parent > 0
      ensures Key(calls, b[Parent(parent)]) <= Key(calls, b[j])
    {
      assert InOrder(a, calls, parent);
      assert j != pos ==> InOrder(a, calls, j);
    }
  }

  method HeapPush(heap: seq<nat>, calls: seq<Call>, c: nat) returns (h: seq<nat>)
    requires HeapOrder(heap, calls)
    ensures HeapOrder(h, calls) && multiset(h) == multiset(heap) + multiset{c} && |h| == |heap| + 1
  {
    h := heap + [c];
    assert forall j :: 0 < j < |heap| ==> InOrder(heap, calls, j);
    assert EarlyAt(h, calls, |heap|);
    h := SiftUp(h, calls, |heap|);
  }

  /** The entry at `k` sinks until both its children are not before it. */
  method SiftDown(heap: seq<nat>, calls: seq<Call>, k: int) returns (h: seq<nat>)
    requires 0 <= k < |heap| && HeapFrom(heap, calls, k + 1)
    ensures HeapFrom(h, calls, k) && multiset(h) == multiset(heap) && |h| == |heap|
  {
    h := heap;
    var pos := k;
    while 2 * pos + 1 < |h|
      invariant |h| == |heap| && multiset(h) == multiset(heap) && LateAt(h, calls, k, pos)
      decreases |h| - pos
    {
      var child := 2 * pos + 1;
      if child + 1 < |h| && Key(calls, h[child + 1]) < Key(calls, h[child]) {
        child := child + 1;
      }
      if Key(calls, h[pos]) <= Key(calls, h[child]) {
        break;
      }
      ghost var before := h;
      h := h[pos := h[child]][child := h[pos]];
      SwapKeepsMultiset(before, h, pos, child);
      Sank(before, h, calls, k, pos, child);
      pos := child;
    }
  }

  /** From `k` on, the order is broken at most below `pos`, whose entry may be too late for its
      children. */
  ghost predicate LateAt(h: seq<nat>, calls: seq<Call>, k: int, pos: int) {
    && 0 <= k <= pos < |h|
    && (forall j :: 0 < j < |h| && Parent(j) >= k && Parent(j) != pos ==> InOrder(h, calls, j))
    && (pos > k ==> Parent(pos) >= k && ParentBeforeChildrenOf(h, calls, pos))
  }

  ghost predicate ParentBeforeChildrenOf(h: seq<nat>, calls: seq<Call>, pos: int)
    requires 0 < pos < |h|
  {
    forall j :: 0 < j < |h| && Parent(j) == pos ==> Key(calls, h[Parent(pos)]) <= Key(calls, h[j])
  }

  lemma Sank(a: seq<nat>, b: seq<nat>, calls: seq<Call>, k: int, pos: int, child: int)
    requires LateAt(a, calls, k, pos) && pos < child < |a| && Parent(child) == pos
    requires Key(calls, a[child]) < Key(calls, a[pos])
    requires forall j :: 0 < j < |a| && Parent(j) == pos ==> Key(calls, a[child]) <= Key(calls, a[j])
    requires b == a[pos := a[child]][child := a[pos]]
    ensures LateAt(b, calls, k, child)
  {
    forall j | 0 < j < |b| && Parent(j) >= k && Parent(j) != child
      ensures InOrder(b, calls, j)
    {
      assert Parent(j) != pos ==> InOrder(a, calls, j);
    }
    forall j | 0 < j < |b| && Parent(j) == child
      ensures Key(calls, b[Parent(child)]) <= Key(calls, b[j])
    {
      assert InOrder(a, calls, j);
    }
  }

  /** `heappop`: the earliest call and the rest. */
  method HeapPop(heap: seq<nat>, calls: seq<Call>) returns (c: nat, h: seq<nat>)
    requires HeapOrder(heap, calls) && heap != []
    ensures c == heap[0] && HeapOrder(h, calls) && multiset(heap) == multiset(h) + multiset{c} && |h| == |heap| - 1
  {
    c, h := heap[0], heap[..|heap| - 1];
    if h == [] {
      assert heap == [c];
    } else {
      h := h[0 := heap[|heap| - 1]];
      LastToRoot(heap, h, calls);
      h := SiftDown(h, calls, 0);
    }
  }

  lemma LastToRoot(heap: seq<nat>, h: seq<nat>, calls: seq<Call>)
    requires HeapOrder(heap, calls) && |heap| > 1 && h == heap[..|heap| - 1][0 := heap[|heap| - 1]]
    ensures HeapFrom(h, calls, 1) && multiset(heap) == multiset(h) + multiset{heap[0]}
  {
    EndsExchanged(heap, h);
    forall j | 0 < j < |h| && Parent(j) >= 1
      ensures InOrder(h, calls, j)
    {
      assert InOrder(heap, calls, j);
    }
  }

  lemma EndsExchanged<T>(a: seq<T>, b: seq<T>)
    requires |a| > 1 && b == a[..|a| - 1][0 := a[|a| - 1]]
    ensures multiset(a) == multiset(b) + multiset{a[0]}
  {
    var n, middle := |a| - 1, a[1..|a| - 1];
    assert a == [a[0]] + middle + [a[n]];
    assert b == [a[n]] + middle;
  }

  /** `heapify`. */
  method Heapify(heap: seq<nat>, calls: seq<Call>) returns (h: seq<nat>)
    ensures HeapOrder(h, calls) && multiset(h) == multiset(heap) && |h| == |heap|
  {
    h := heap;
    var i := |h| / 2;
    while i > 0
      invariant 0 <= i <= |h| / 2 && |h| == |heap| && multiset(h) == multiset(heap) && HeapFrom(h, calls, i)
    {
      i := i - 1;
      h := SiftDown(h, calls, i);
    }
  }
}
