/** A worker that runs work on the calling thread, under a lock. */
module LockWorker {
  import opened Prelude

  /** While it runs, a piece of work hands others to the same worker, and then may raise. */
  datatype Work = Work(id: nat, calls: seq<Work>, raises: bool)

  function Size(ws: seq<Work>): nat { if ws == [] then 0 else 1 + Size(ws[0].calls) + Size(ws[1..]) }

  lemma {:induction false} SizeAppend(a: seq<Work>, b: seq<Work>)
    ensures Size(a + b) == Size(a) + Size(b)
  {
    if a == [] {
      assert a + b == b;
    } else {
      assert (a + b)[1..] == a[1..] + b;
      SizeAppend(a[1..], b);
    }
  }

  /** What a thread runs for the work in its list: first in first out, work that is handed over by
      work going to the end, until something raises. */
  function Executed(ws: seq<Work>): seq<Work>
    decreases Size(ws)
  {
    if ws == [] then []
    else if ws[0].raises then [ws[0]]
    else SizeAppend(ws[1..], ws[0].calls); [ws[0]] + Executed(ws[1..] + ws[0].calls)
  }

  function ExecutedEach(outer: seq<Work>): seq<Work> {
    if outer == [] then [] else ExecutedEach(outer[..|outer| - 1]) + Executed([outer[|outer| - 1]])
  }

  /** What is in the list when it stops. */
  function Left(ws: seq<Work>): seq<Work>
    decreases Size(ws)
  {
    if ws == [] then []
    else if ws[0].raises then ws[1..] + ws[0].calls
    else SizeAppend(ws[1..], ws[0].calls); Left(ws[1..] + ws[0].calls)
  }

  /** All the work there is, in the order in which it would run if nothing raised. */
  function Order(ws: seq<Work>): (all: seq<Work>)
    ensures |all| == Size(ws)
    decreases Size(ws)
  {
    if ws == [] then []
    else SizeAppend(ws[1..], ws[0].calls); [ws[0]] + Order(ws[1..] + ws[0].calls)
  }

  /** What the works of a list hand over. */
  function HandedOver(ws: seq<Work>): seq<Work> { if ws == [] then [] else ws[0].calls + HandedOver(ws[1..]) }

  /** First in first out: the works of a list run before any that they hand over, and those then run in
      the order in which they were handed over, before any that they hand over in turn. */
  lemma RunsInGenerations(ws: seq<Work>)
    ensures Order(ws) == ws + Order(HandedOver(ws))
  {
    OrderWithMore(ws, []);
    assert ws + [] == ws && [] + HandedOver(ws) == HandedOver(ws);
  }

  lemma {:induction false} OrderWithMore(ws: seq<Work>, more: seq<Work>)
    ensures Order(ws + more) == ws + Order(more + HandedOver(ws))
    decreases |ws|
  {
    if ws == [] {
      assert ws + more == more && more + HandedOver(ws) == more;
    } else {
      var w, rest := ws[0], ws[1..];
      assert (ws + more)[1..] == rest + more;
      assert rest + more + w.calls == rest + (more + w.calls);
      OrderWithMore(rest, more + w.calls);
      assert more + w.calls + HandedOver(rest) == more + HandedOver(ws);
      assert [w] + (rest + Order(more + HandedOver(ws))) == ws + Order(more + HandedOver(ws));
    }
  }

  /** Nothing raises, unless it is the very last. */
  predicate OnlyLastRaises(all: seq<Work>) { forall i :: 0 <= i < |all| - 1 ==> !all[i].raises }

  /** A prefix of the work is run, up to the first that raises, and all of it exactly if nothing
      raises before the last; only then is the list empty at the end. */
  lemma {:induction false} LostExactlyByRaising(ws: seq<Work>)
    ensures Executed(ws) <= Order(ws) && Order(ws) == Executed(ws) + Order(Left(ws))
    ensures forall i :: 0 <= i < |Executed(ws)| - 1 ==> !Executed(ws)[i].raises
    ensures |Executed(ws)| == Size(ws) <==> OnlyLastRaises(Order(ws))
    ensures Left(ws) == [] <==> OnlyLastRaises(Order(ws))
    decreases Size(ws)
  {
    if ws == [] {
      assert Order([]) == [] + [];
    } else {
      var rest := ws[1..] + ws[0].calls;
      SizeAppend(ws[1..], ws[0].calls);
      if !ws[0].raises {
        LostExactlyByRaising(rest);
        assert [ws[0]] + (Executed(rest) + Order(Left(rest))) == Executed(ws) + Order(Left(ws));
        assert forall i :: 0 < i < |Order(ws)| ==> Order(ws)[i] == Order(rest)[i - 1];
        OneEarlier(ws[0], Order(rest));
      } else {
        assert rest == [] <==> Order(rest) == [];
        assert Order(ws)[0].raises;
      }
    }
  }

  lemma OneEarlier(w: Work, rest: seq<Work>)
    requires !w.raises
    ensures OnlyLastRaises([w] + rest) <==> OnlyLastRaises(rest)
  {
    assert forall i :: 0 <= i < |rest| ==> ([w] + rest)[i + 1] == rest[i];
  }

  predicate NoneRaises(ws: seq<Work>) { ws == [] || (!ws[0].raises && NoneRaises(ws[0].calls) && NoneRaises(ws[1..])) }

  lemma {:induction false} NoneRaisesAppend(a: seq<Work>, b: seq<Work>)
    ensures NoneRaises(a + b) <==> NoneRaises(a) && NoneRaises(b)
  {
    if a == [] {
      assert a + b == b;
    } else {
      assert (a + b)[1..] == a[1..] + b;
      NoneRaisesAppend(a[1..], b);
    }
  }

  /** Work that does not raise is run completely, with everything it hands over. */
  lemma {:induction false} NothingIsLost(ws: seq<Work>)
    requires NoneRaises(ws)
    ensures |Executed(ws)| == Size(ws)
    decreases Size(ws)
  {
    if ws != [] {
      SizeAppend(ws[1..], ws[0].calls);
      NoneRaisesAppend(ws[1..], ws[0].calls);
      NothingIsLost(ws[1..] + ws[0].calls);
    }
  }

  /** The smallest case of the other kind. */
  lemma RaisingLosesWork()
    ensures var w := Work(1, [], false); Executed([Work(0, [w], true)]) == [Work(0, [w], true)]
  {
  }

  /** `LockWorker`, as one thread uses it while no other interferes. */
  class Worker {
    var hasQuit: bool
    var held: bool                          // _lock
    var working: Option<seq<Work>>          // local.working
    ghost var ran: seq<Work>

    constructor ()
      ensures !hasQuit && !held && working == None && ran == []
    {
      hasQuit, held, working, ran := false, false, None, [];
    }

    /** `do` from outside the worker; whether it was accepted. */
    method Do(work: Work) returns (ok: bool)
      requires working == None && !held
      modifies this
      ensures ok == !old(hasQuit) && hasQuit == old(hasQuit) && !held && working == None
      ensures ran == old(ran) + if ok then Executed([work]) else []
    {
      if hasQuit {
        return false;
      }
      working := Some([work]);
      held := true;
      var raised := false;
      while working.value != [] && !raised
        invariant working.Some? && !hasQuit && held
        invariant ran + (if raised then [] else Executed(working.value)) == old(ran) + Executed([work])
        decreases !raised, Size(working.value)
      {
        var item := working.value[0];
        ghost var before, rest := ran, working.value[1..] + item.calls;
        SizeAppend(working.value[1..], item.calls);
        assert before + ([item] + Executed(rest)) == before + [item] + Executed(rest);
        working := Some(working.value[1..]);
        ran := ran + [item];
        Reenter(item.calls);
        raised := item.raises;
      }
      held := false;
      working := None;
      return true;
    }

    /** The `do` calls that a running item makes: each is put at the end of the list. */
    method Reenter(calls: seq<Work>)
      requires working.Some? && !hasQuit
      modifies this`working
      ensures working == Some(old(working).value + calls)
    {
      var i := 0;
      while i < |calls|
        invariant 0 <= i <= |calls| && working.Some? && working.value == old(working).value + calls[..i]
      {
        working := Some(working.value + [calls[i]]);
        assert calls[..i + 1] == calls[..i] + [calls[i]];
        i := i + 1;
      }
      assert calls[..i] == calls;
    }
  }

  // -------------------------------------------------------------------- any number of threads

  /** Where a thread is in `do`. */
  datatype Place =
    | Outside
    | Acquiring
    | Looping
    | Running(work: Work, left: seq<Work>)
    | Released

  datatype Thread = Thread(
    at: Place,
    working: Option<seq<Work>>,     // local.working
    outer: seq<Work>,               // the work accepted from outside
    ran: seq<Work>,                 // the work started
    cut: bool)                      // work of its own raised AlreadyQuit

  datatype System = System(lock: Option<nat>, hasQuit: bool, threads: seq<Thread>)

  /** The thread that takes the step; `Call` is a call of `do` from outside. */
  datatype Step = Call(t: nat, work: Work) | Quit | Go(t: nat)

  /** One step of one thread. A thread that cannot go on stays where it is. */
  function Next(s: System, step: Step): System {
    match step
    case Quit => s.(hasQuit := true)
    case Call(t, work) =>
      if t < |s.threads| && s.threads[t].at.Outside? && !s.hasQuit then
        var th := s.threads[t];
        s.(threads := s.threads[t := Thread(Acquiring, Some([work]), th.outer + [work], th.ran, false)])
      else s
    case Go(t) =>
      if t < |s.threads| then
        var (th, lock) := Advance(s.threads[t], t, s.lock, s.hasQuit);
        s.(threads := s.threads[t := th], lock := lock)
      else s
  }

  /** What thread `t` does next, and what becomes of the lock. */
  function Advance(th: Thread, t: nat, lock: Option<nat>, hasQuit: bool): (Thread, Option<nat>) {
    match th.at
    case Outside => (th, lock)
    case Acquiring => if lock == None then (th.(at := Looping), Some(t)) else (th, lock)
    case Looping =>
      if th.working == None then (th, lock)
      else if th.working.value == [] then (th.(at := Released), None)
      else
        var w := th.working.value[0];
        (th.(at := Running(w, w.calls), working := Some(th.working.value[1..]), ran := th.ran + [w]), lock)
    case Running(w, left) =>
      if th.working == None then (th, lock)
      else if left != [] then
        if hasQuit then (th.(at := Released, cut := true), None)     // AlreadyQuit comes out of the work
        else (th.(at := Running(w, left[1..]), working := Some(th.working.value + [left[0]])), lock)
      else if w.raises then (th.(at := Released), None)
      else (th.(at := Looping), lock)
    case Released => (th.(at := Outside, working := None), lock)
  }

  function Run(s: System, steps: seq<Step>): System
    decreases |steps|
  {
    if steps == [] then s else Next(Run(s, steps[..|steps| - 1]), steps[|steps| - 1])
  }

  predicate Inside(th: Thread) { th.at.Looping? || th.at.Running? }

  /** What the thread is still going to run for the work it has accepted. */
  function ToRun(th: Thread): seq<Work> {
    match th.at
    case Outside => []
    case Released => []
    case Running(w, left) => if w.raises || th.working == None then [] else Executed(th.working.value + left)
    case _ => if th.working == None then [] else Executed(th.working.value)
  }

  /** What will be in its list when the thread releases the lock. */
  function ToLeave(th: Thread): seq<Work> {
    if th.working == None then [] else
    match th.at
    case Outside => []
    case Released => th.working.value
    case Running(w, left) => if w.raises then th.working.value + left else Left(th.working.value + left)
    case _ => Left(th.working.value)
  }

  /** It has run a part of what it would have run for the last work it accepted, and all for the
      others; if the refused call came from work that would have raised anyway, that is all of it. */
  predicate CutShort(th: Thread) {
    && th.outer != [] && th.ran != []
    && ExecutedEach(th.outer[..|th.outer| - 1]) <= th.ran <= ExecutedEach(th.outer)
    && (th.ran == ExecutedEach(th.outer) <==> th.ran[|th.ran| - 1].raises)
  }

  predicate Sound(th: Thread, hasQuit: bool) {
    && (th.at.Outside? <==> th.working == None)
    && (!th.at.Outside? ==> th.outer != [] && ExecutedEach(th.outer[..|th.outer| - 1]) <= th.ran)
    && (!th.cut && !th.at.Outside? ==> ToLeave(th) == Left([th.outer[|th.outer| - 1]]))
    && (th.at.Running? ==> th.ran != [] && th.ran[|th.ran| - 1] == th.at.work)
    && (if th.cut then hasQuit && (th.at.Outside? || th.at.Released?) && CutShort(th)
        else th.ran + ToRun(th) == ExecutedEach(th.outer))
  }

  /** The lock is held by the thread that is inside the loop, and every thread is sound. */
  ghost predicate Inv(s: System) {
    && (forall t :: 0 <= t < |s.threads| ==> Sound(s.threads[t], s.hasQuit))
    && (forall t :: 0 <= t < |s.threads| ==> (Inside(s.threads[t]) <==> s.lock == Some(t)))
    && (s.lock.Some? ==> s.lock.value < |s.threads|)
  }

  lemma AdvanceKeeps(th: Thread, t: nat, lock: Option<nat>, hasQuit: bool)
    requires Sound(th, hasQuit) && (Inside(th) <==> lock == Some(t))
    ensures var (th', lock') := Advance(th, t, lock, hasQuit);
            && Sound(th', hasQuit) && (Inside(th') <==> lock' == Some(t))
            && (lock' == lock || (lock' == None && lock == Some(t)) || (lock' == Some(t) && lock == None))
  {
    hide ExecutedEach;
    if th.at.Looping? {
      LoopingKeeps(th, t, lock, hasQuit);
    } else {
      hide Executed;
      if th.at.Running? {
        var list, left := th.working.value, th.at.left;
        assert left != [] ==> list + left == list + [left[0]] + left[1..];
        assert list + [] == list;
      }
    }
  }

  lemma LoopingKeeps(th: Thread, t: nat, lock: Option<nat>, hasQuit: bool)
    requires Sound(th, hasQuit) && lock == Some(t) && th.at.Looping?
    ensures Sound(Advance(th, t, lock, hasQuit).0, hasQuit)
  {
    hide ExecutedEach;
    var list := th.working.value;
    if list == [] {
      assert th.ran + [] == th.ran;
    } else {
      var w, rest := list[0], list[1..] + list[0].calls;
      if w.raises {
        assert Executed(list) == [w] && th.ran + [w] + [] == th.ran + [w];
      } else {
        assert th.ran + ([w] + Executed(rest)) == th.ran + [w] + Executed(rest);
      }
    }
  }

  lemma CallKeeps(th: Thread, work: Work)
    requires Sound(th, false) && th.at.Outside?
    ensures Sound(Thread(Acquiring, Some([work]), th.outer + [work], th.ran, false), false)
  {
    var outer := th.outer + [work];
    assert outer[..|outer| - 1] == th.outer;
    assert th.ran + [] == th.ran;
  }

  lemma NextKeeps(s: System, step: Step)
    requires Inv(s)
    ensures Inv(Next(s, step))
  {
    match step {
      case Quit =>
      case Call(t, work) =>
        if t < |s.threads| && s.threads[t].at.Outside? && !s.hasQuit {
          CallKeeps(s.threads[t], work);
        }
      case Go(t) =>
        if t < |s.threads| {
          AdvanceKeeps(s.threads[t], t, s.lock, s.hasQuit);
        }
    }
  }

  predicate Fresh(s: System) {
    && s.lock == None && !s.hasQuit
    && forall t :: 0 <= t < |s.threads| ==> s.threads[t] == Thread(Outside, None, [], [], false)
  }

  lemma {:induction false} RunKeeps(s: System, steps: seq<Step>)
    requires Fresh(s)
    ensures Inv(Run(s, steps))
    decreases |steps|
  {
    if steps != [] {
      RunKeeps(s, steps[..|steps| - 1]);
      NextKeeps(Run(s, steps[..|steps| - 1]), steps[|steps| - 1]);
    }
  }

  /** However the threads take turns, only one of them is inside the worker. */
  lemma MutualExclusion(s: System, steps: seq<Step>, t: nat, u: nat)
    requires Fresh(s) && t < |Run(s, steps).threads| && u < |Run(s, steps).threads|
    requires Inside(Run(s, steps).threads[t]) && Inside(Run(s, steps).threads[u])
    ensures t == u
  {
    RunKeeps(s, steps);
  }

  /** However the threads take turns, a thread that is back outside has run what it would have run
      alone: each accepted piece of work, and after it, in order, what that handed over. If the
      worker has quit, the last piece may have been cut short by a call that was refused. */
  lemma InterleavingDoesNotMatter(s: System, steps: seq<Step>, t: nat)
    requires Fresh(s) && t < |Run(s, steps).threads| && Run(s, steps).threads[t].at.Outside?
    ensures var th := Run(s, steps).threads[t];
            if th.cut then Run(s, steps).hasQuit && CutShort(th) else th.ran == ExecutedEach(th.outer)
  {
    RunKeeps(s, steps);
  }

  /** Wherever a thread is, what it has run is a part of what it would run alone. */
  lemma OnlyAcceptedWorkIsRun(s: System, steps: seq<Step>, t: nat)
    requires Fresh(s) && t < |Run(s, steps).threads|
    ensures Run(s, steps).threads[t].ran <= ExecutedEach(Run(s, steps).threads[t].outer)
  {
    RunKeeps(s, steps);
    hide ExecutedEach, Executed, ToRun, ToLeave;
    var th := Run(s, steps).threads[t];
    assert !th.cut ==> th.ran <= th.ran + ToRun(th);
  }

  /** When a thread has released the lock, and its work was not cut short, its list is empty exactly
      if nothing raised before the last of what the work handed over; what is left is dropped. */
  lemma EmptyWhenReleased(s: System, steps: seq<Step>, t: nat)
    requires Fresh(s) && t < |Run(s, steps).threads|
    requires Run(s, steps).threads[t].at.Released? && !Run(s, steps).threads[t].cut
    ensures var th := Run(s, steps).threads[t];
            && th.outer != [] && th.working == Some(Left([th.outer[|th.outer| - 1]]))
            && (th.working == Some([]) <==> OnlyLastRaises(Order([th.outer[|th.outer| - 1]])))
  {
    RunKeeps(s, steps);
    var th := Run(s, steps).threads[t];
    LostExactlyByRaising([th.outer[|th.outer| - 1]]);
  }

  // ------------------------------------------------------------------ what is accepted and done

  /** A call from outside is accepted exactly while the worker has not quit. */
  lemma AcceptedUntilQuit(s: System, t: nat, work: Work)
    requires t < |s.threads| && s.threads[t].at.Outside?
    ensures var th := Next(s, Call(t, work)).threads[t];
            if s.hasQuit then th == s.threads[t]
            else th.at.Acquiring? && th.outer == s.threads[t].outer + [work] && th.ran == s.threads[t].ran
  {
  }

  /** Once the worker has quit, no thread is ever given more work. */
  lemma {:induction false} NothingAcceptedAfterQuit(s: System, steps: seq<Step>)
    requires s.hasQuit
    ensures Run(s, steps).hasQuit && |Run(s, steps).threads| == |s.threads|
    ensures forall t :: 0 <= t < |s.threads| ==> Run(s, steps).threads[t].outer == s.threads[t].outer
    decreases |steps|
  {
    if steps != [] {
      NothingAcceptedAfterQuit(s, steps[..|steps| - 1]);
    }
  }

  /** The steps it takes to run a list: each work is started and ends, and each that is handed over is
      handed over first. */
  function Cost(ws: seq<Work>): nat { if ws == [] then 0 else 2 + 3 * Size(ws[0].calls) + Cost(ws[1..]) }

  lemma {:induction false} CostAppend(ws: seq<Work>, w: Work)
    ensures Cost(ws + [w]) + 1 == Cost(ws) + 3 * Size([w])
  {
    if ws == [] {
      assert [w][1..] == [];
    } else {
      assert (ws + [w])[1..] == ws[1..] + [w];
      CostAppend(ws[1..], w);
    }
  }

  function ListCost(th: Thread): nat { if th.working == None then 0 else Cost(th.working.value) }

  /** An upper bound of the steps that a thread has before it. */
  function Effort(th: Thread): nat {
    match th.at
    case Outside => 0
    case Acquiring => 3 + ListCost(th)
    case Looping => 2 + ListCost(th)
    case Running(_, left) => 3 + ListCost(th) + 3 * Size(left)
    case Released => 1
  }

  function TotalEffort(threads: seq<Thread>): nat {
    if threads == [] then 0 else Effort(threads[0]) + TotalEffort(threads[1..])
  }

  /** A thread can go on unless it is outside, or waits for the lock while another has it. */
  predicate CanGo(s: System, t: nat) {
    t < |s.threads| && !s.threads[t].at.Outside? && (s.threads[t].at.Acquiring? ==> s.lock == None)
  }

  lemma GoingIsProgress(th: Thread, t: nat, lock: Option<nat>, hasQuit: bool)
    requires Sound(th, hasQuit) && !th.at.Outside? && (th.at.Acquiring? ==> lock == None)
    ensures Effort(Advance(th, t, lock, hasQuit).0) < Effort(th)
  {
    if th.at.Running? && th.at.left != [] {
      var left := th.at.left;
      assert left == [left[0]] + left[1..];
      SizeAppend([left[0]], left[1..]);
      CostAppend(th.working.value, left[0]);
    }
  }

  lemma {:induction false} TotalChanges(threads: seq<Thread>, t: nat, th: Thread)
    requires t < |threads|
    ensures TotalEffort(threads[t := th]) == TotalEffort(threads) - Effort(threads[t]) + Effort(th)
  {
    if t == 0 {
      assert threads[t := th][1..] == threads[1..];
    } else {
      assert threads[t := th][1..] == threads[1..][t - 1 := th];
      TotalChanges(threads[1..], t - 1, th);
    }
  }

  /** While some thread is not outside, some thread can go on. */
  lemma NoDeadlock(s: System, t: nat) returns (u: nat)
    requires Inv(s) && t < |s.threads| && !s.threads[t].at.Outside?
    ensures CanGo(s, u)
  {
    u := if s.lock.Some? then s.lock.value else t;
  }

  /** Steps of threads that can go on. */
  ghost predicate AllGo(s: System, steps: seq<Step>)
    decreases |steps|
  {
    steps == [] ||
    (AllGo(s, steps[..|steps| - 1]) && steps[|steps| - 1].Go?
     && CanGo(Run(s, steps[..|steps| - 1]), steps[|steps| - 1].t))
  }

  lemma {:induction false} GoingEnds(s: System, steps: seq<Step>)
    requires Inv(s) && AllGo(s, steps)
    ensures Inv(Run(s, steps)) && Run(s, steps).hasQuit == s.hasQuit && |Run(s, steps).threads| == |s.threads|
    ensures |steps| + TotalEffort(Run(s, steps).threads) <= TotalEffort(s.threads)
    decreases |steps|
  {
    hide Sound, Effort, Inside, Advance;
    if steps != [] {
      var before, t := steps[..|steps| - 1], steps[|steps| - 1].t;
      GoingEnds(s, before);
      var m := Run(s, before);
      NextKeeps(m, Go(t));
      GoingIsProgress(m.threads[t], t, m.lock, m.hasQuit);
      TotalChanges(m.threads, t, Advance(m.threads[t], t, m.lock, m.hasQuit).0);
    }
  }

  /** Nothing hangs: if nobody calls the worker any more, its threads come to rest after a bounded number
      of steps, in whatever order they take them; and they rest only when all of them are outside, and
      have run all they accepted. */
  lemma EverythingGetsRun(s: System, calls: seq<Step>, steps: seq<Step>)
    requires Fresh(s) && AllGo(Run(s, calls), steps)
    ensures var m, m' := Run(s, calls), Run(Run(s, calls), steps);
            && |steps| + TotalEffort(m'.threads) <= TotalEffort(m.threads)
            && ((forall t :: !CanGo(m', t)) ==> forall t :: 0 <= t < |m'.threads| ==>
                  m'.threads[t].at.Outside?
                  && (!m'.hasQuit ==> m'.threads[t].ran == ExecutedEach(m'.threads[t].outer)))
  {
    RunKeeps(s, calls);
    GoingEnds(Run(s, calls), steps);
    var m' := Run(Run(s, calls), steps);
    if forall t :: !CanGo(m', t) {
      forall t | 0 <= t < |m'.threads|
        ensures m'.threads[t].at.Outside?
      {
        if !m'.threads[t].at.Outside? {
          var u := NoDeadlock(m', t);
        }
      }
      assert forall t :: 0 <= t < |m'.threads| ==> Sound(m'.threads[t], m'.hasQuit);
    }
  }
}
