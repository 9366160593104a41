/** Calls that other threads hand to the reactor, and the part of a reactor pass that makes them. */
module ThreadCalls {

  /** `arriving` are the calls that get queued while this one runs, by itself or by any thread. */
  datatype ThreadCall = ThreadCall(name: nat, arriving: seq<ThreadCall>, raises: bool)

  /** Everything that arrives while these calls are made. */
  function Arriving(made: seq<ThreadCall>): seq<ThreadCall> {
    if made == [] then [] else made[0].arriving + Arriving(made[1..])
  }

  lemma {:induction false} ArrivingAppend(a: seq<ThreadCall>, c: ThreadCall)
    ensures Arriving(a + [c]) == Arriving(a) + c.arriving
  {
    if a == [] {
      assert [c][1..] == [] && c.arriving + [] == [] + c.arriving;
    } else {
      assert (a + [c])[1..] == a[1..] + [c];
      ArrivingAppend(a[1..], c);
    }
  }

  class ReactorThreads {
    var threadCallQueue: seq<ThreadCall>
    var awake: bool                     // a wake-up is on its way
    ghost var accepted: seq<ThreadCall>
    ghost var made: seq<ThreadCall>

    /** What was accepted is made in that order, each call once; nothing waits without a wake-up. */
    ghost predicate Valid()
      reads this
    {
      accepted == made + threadCallQueue && (threadCallQueue != [] ==> awake)
    }

    constructor ()
      ensures Valid() && accepted == []
    {
      threadCallQueue, awake, accepted, made := [], false, [], [];
    }

    method CallFromThread(c: ThreadCall)
      requires Valid()
      modifies this
      ensures Valid() && accepted == old(accepted) + [c] && made == old(made)
    {
      threadCallQueue := threadCallQueue + [c];
      accepted := accepted + [c];
      awake := true;
    }

    method Make(c: ThreadCall)
      modifies this`threadCallQueue, this`accepted, this`made
      ensures threadCallQueue == old(threadCallQueue) + c.arriving && accepted == old(accepted) + c.arriving
      ensures made == old(made) + [c]
    {
      made := made + [c];
      threadCallQueue := threadCallQueue + c.arriving;
      accepted := accepted + c.arriving;
    }

    lemma Assoc(a: seq<ThreadCall>, b: seq<ThreadCall>, c: seq<ThreadCall>)
      ensures a + b + c == a + (b + c)
    {
    }

    /** The first half of `runUntilCurrent`: exactly the calls queued at its start are made, and
        those that arrive meanwhile wait for the next pass, whichever calls raise. */
    method MakeCalls()
      requires Valid()
      modifies this
      ensures Valid() && made == old(made) + old(threadCallQueue)
      ensures threadCallQueue == Arriving(old(threadCallQueue)) && accepted == old(accepted) + threadCallQueue
    {
      assert Arriving([]) == [];
      hide Arriving;
      awake := false;
      if threadCallQueue != [] {
        ghost var queued, before, arrived := threadCallQueue, made, [];
        var count, total := 0, |threadCallQueue|;
        while count < |threadCallQueue|
          invariant 0 <= count < total == |queued| && arrived == Arriving(queued[..count])
          invariant threadCallQueue == queued + arrived && accepted == old(accepted) + arrived
          invariant made == before + queued[..count]
          decreases total - count
        {
          var c := threadCallQueue[count];
          assert c == queued[count] && queued[..count + 1] == queued[..count] + [c];
          ArrivingAppend(queued[..count], c);
          Assoc(queued, arrived, c.arriving);
          Assoc(old(accepted), arrived, c.arriving);
          Assoc(before, queued[..count], [c]);
          arrived := arrived + c.arriving;
          Make(c);
          count := count + 1;
          if count == total {
            break;
          }
        }
        assert queued[..count] == queued;
        threadCallQueue := threadCallQueue[count..];
        if threadCallQueue != [] {
          awake := true;
        }
      }
    }
  }

  /** The calls made by one pass after another, when nothing else arrives between them. */
  function Passes(queue: seq<ThreadCall>, n: nat): seq<ThreadCall>
    decreases n
  {
    if n == 0 then [] else queue + Passes(Arriving(queue), n - 1)
  }

  function Depth(queue: seq<ThreadCall>): nat {
    if queue == [] then 0 else var d, e := 1 + Depth(queue[0].arriving), Depth(queue[1..]); if d > e then d else e
  }

  /** Every call is made after as many passes as calls made calls: then the queue stays empty. */
  lemma {:induction false} EverythingIsMade(queue: seq<ThreadCall>, n: nat)
    ensures Passes(queue, Depth(queue) + n) == Passes(queue, Depth(queue))
    decreases Depth(queue), n
  {
    if queue == [] {
      if n > 0 {
        EverythingIsMade([], n - 1);
      }
    } else {
      ArrivingIsShallower(queue);
      var later := Arriving(queue);
      var k := Depth(queue) - 1 - Depth(later);
      EverythingIsMade(later, k + n);
      EverythingIsMade(later, k);
    }
  }

  lemma {:induction false} ArrivingIsShallower(queue: seq<ThreadCall>)
    requires queue != []
    ensures Depth(Arriving(queue)) < Depth(queue)
  {
    DepthOfBoth(queue[0].arriving, Arriving(queue[1..]));
    if queue[1..] != [] {
      ArrivingIsShallower(queue[1..]);
    }
  }

  lemma {:induction false} DepthOfBoth(a: seq<ThreadCall>, b: seq<ThreadCall>)
    ensures Depth(a + b) == if Depth(a) > Depth(b) then Depth(a) else Depth(b)
  {
    if a == [] {
      assert a + b == b;
    } else {
      assert (a + b)[1..] == a[1..] + b;
      DepthOfBoth(a[1..], b);
    }
  }

  function Later(queue: seq<ThreadCall>, n: nat): seq<ThreadCall>
    decreases n
  {
    if n == 0 then queue else Later(Arriving(queue), n - 1)
  }

  lemma {:induction false} NothingIsLater(queue: seq<ThreadCall>)
    ensures Later(queue, Depth(queue)) == []
    decreases Depth(queue)
  {
    if queue != [] {
      ArrivingIsShallower(queue);
      NothingIsLater(Arriving(queue));
      EmptyStaysEmpty(Arriving(queue), Depth(Arriving(queue)), Depth(queue) - 1);
    }
  }

  lemma {:induction false} EmptyStaysEmpty(queue: seq<ThreadCall>, m: nat, n: nat)
    requires m <= n && Later(queue, m) == []
    ensures Later(queue, n) == []
    decreases n
  {
    if m > 0 {
      EmptyStaysEmpty(Arriving(queue), m - 1, n - 1);
    } else if n > 0 {
      EmptyStaysEmpty(Arriving(queue), 0, n - 1);
    }
  }

  /** When nothing else arrives, as many passes as calls queue calls make everything, and leave the
      queue empty. */
  method MakeEverything(r: ReactorThreads, n: nat)
    requires r.Valid() && n == Depth(r.threadCallQueue)
    modifies r
    ensures r.Valid() && r.threadCallQueue == [] && r.made == r.accepted
    ensures r.made == old(r.made) + Passes(old(r.threadCallQueue), n)
  {
    ghost var queue, before := r.threadCallQueue, r.made;
    NothingIsLater(queue);
    var i := 0;
    while i < n
      invariant 0 <= i <= n && r.Valid()
      invariant Later(r.threadCallQueue, n - i) == Later(queue, n)
      invariant r.made + Passes(r.threadCallQueue, n - i) == before + Passes(queue, n)
    {
      ghost var made0, queue0 := r.made, r.threadCallQueue;
      r.MakeCalls();
      assert made0 + (queue0 + Passes(r.threadCallQueue, n - i - 1)) == r.made + Passes(r.threadCallQueue, n - i - 1);
      i := i + 1;
    }
  }
}
