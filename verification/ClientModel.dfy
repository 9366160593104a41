/** The machine that keeps one outgoing connection, as a function on values, and what it keeps over
    every run. Cancelling a connection attempt makes it fail at once, and Deferreds that fire do
    not call back into the machine. */
module ClientModel {
  import opened Prelude

  datatype State = Init | Connecting | Waiting | Connected | Disconnecting | Restarting | Stopped

  /** An entry of `_awaitingConnected`; Deferreds are numbered in the order they were asked for. */
  datatype Waiter = Waiter(id: nat, remaining: Option<int>)

  /** How a Deferred of `whenConnected` fired: `failure` counts the connection failures. */
  datatype Outcome = Got(connection: nat) | Failed(failure: nat) | Cancelled

  datatype Fired = Fired(id: nat, outcome: Outcome)

  /** What was asked for, and how many connections had failed by then. */
  datatype Ask = Ask(failAfterFailures: Option<int>, at: nat)

  datatype Machine = Machine(
    state: State,
    failedAttempts: nat,
    current: Option<nat>,           // _currentConnection, while the attribute is there
    awaiting: seq<Waiter>,          // _awaitingConnected
    stopWaiters: seq<nat>,
    retryCall: Option<nat>,         // the live _retryCall: the attempt its delay was made for
    inProgress: bool,               // a connection attempt is going on
    live: Option<nat>,              // the connection that is open
    asked: seq<Ask>,                // the calls of whenConnected
    fired: seq<Fired>,
    failures: nat,                  // connection failures so far
    stops: nat,                     // the Deferreds returned by stop
    stopFired: seq<nat>)

  datatype Input =
    | Start
    | Stop
    | WhenConnected(failAfterFailures: Option<int>)
    | ConnectionMade(connection: nat)
    | ConnectionFailed
    | Reconnect
    | ClientDisconnected

  const FRESH: Machine := Machine(Init, 0, None, [], [], None, false, None, [], [], 0, 0, [])

  // ----------------------------------------------------------------------- what the inputs do

  function AllFire(waiters: seq<Waiter>, outcome: Outcome): (r: seq<Fired>) {
    seq(|waiters|, i requires 0 <= i < |waiters| => Fired(waiters[i].id, outcome))
  }

  predicate IsReady(w: Waiter) { w.remaining.Some? && w.remaining.value <= 1 }

  function Ready(waiters: seq<Waiter>): seq<Waiter> {
    if waiters == [] then [] else (if IsReady(waiters[0]) then [waiters[0]] else []) + Ready(waiters[1..])
  }

  function OneLess(w: Waiter): Waiter {
    if w.remaining.Some? then w.(remaining := Some(w.remaining.value - 1)) else w
  }

  function NotReady(waiters: seq<Waiter>): seq<Waiter> {
    if waiters == [] then [] else (if IsReady(waiters[0]) then [] else [OneLess(waiters[0])]) + NotReady(waiters[1..])
  }

  function Unawait(m: Machine, outcome: Outcome): Machine {
    m.(awaiting := [], fired := m.fired + AllFire(m.awaiting, outcome))
  }

  function FinishStopping(m: Machine): Machine { m.(stopWaiters := [], stopFired := m.stopFired + m.stopWaiters) }

  function WaitForStop(m: Machine): Machine { m.(stops := m.stops + 1, stopWaiters := m.stopWaiters + [m.stops]) }

  function Retry(m: Machine): Machine {
    m.(failedAttempts := m.failedAttempts + 1, retryCall := Some(m.failedAttempts + 1))
  }

  function OnStart(m: Machine): Machine {
    match m.state
    case Init => m.(state := Connecting, inProgress := true)
    case Stopped => m.(state := Connecting, inProgress := true)
    case Disconnecting => m.(state := Restarting, failedAttempts := 0)
    case _ => m
  }

  function OnStop(m: Machine): Machine {
    match m.state
    case Init => m.(state := Stopped, stops := m.stops + 1, stopFired := m.stopFired + [m.stops])
    case Stopped => m.(stops := m.stops + 1, stopFired := m.stopFired + [m.stops])
    case Connecting => FinishStopping(Unawait(WaitForStop(m).(state := Stopped, inProgress := false), Cancelled))
    case Waiting => FinishStopping(Unawait(WaitForStop(m).(state := Stopped, retryCall := None), Cancelled))
    case _ => WaitForStop(m).(state := Disconnecting)
  }

  function OnWhenConnected(m: Machine, k: Option<int>): Option<Machine> {
    var asking := m.(asked := m.asked + [Ask(k, m.failures)]);
    match m.state
    case Connected =>
      if m.current == None then None
      else Some(asking.(fired := m.fired + [Fired(|m.asked|, Got(m.current.value))]))
    case Stopped => Some(asking.(fired := m.fired + [Fired(|m.asked|, Cancelled)]))
    case _ => Some(asking.(awaiting := m.awaiting + [Waiter(|m.asked|, k)]))
  }

  function OnConnectionFailed(m: Machine): Option<Machine> {
    if m.state == Connecting then
      Some(Retry(m).(state := Waiting, inProgress := false, failures := m.failures + 1,
                     awaiting := NotReady(m.awaiting),
                     fired := m.fired + AllFire(Ready(m.awaiting), Failed(m.failures + 1))))
    else None
  }

  function OnClientDisconnected(m: Machine): Option<Machine> {
    if m.current == None then None else
    match m.state
    case Connected => Some(Retry(m).(state := Waiting, live := None, current := None))
    case Disconnecting => Some(FinishStopping(Unawait(m, Cancelled)).(state := Stopped, live := None, current := None))
    case Restarting => Some(FinishStopping(m).(state := Connecting, live := None, inProgress := true))
    case _ => None
  }

  /** One input and everything it sets off; nothing where the machine would raise NoTransition, or
      AttributeError for a connection it has forgotten. */
  function Next(m: Machine, input: Input): Option<Machine> {
    match input
    case Start => Some(OnStart(m))
    case Stop => Some(OnStop(m))
    case WhenConnected(k) => OnWhenConnected(m, k)
    case ConnectionMade(c) =>
      if m.state == Connecting then
        Some(Unawait(m, Got(c)).(state := Connected, failedAttempts := 0, current := Some(c), live := Some(c),
                                 inProgress := false))
      else None
    case ConnectionFailed => OnConnectionFailed(m)
    case Reconnect =>
      if m.state == Waiting then Some(m.(state := Connecting, inProgress := true, retryCall := None)) else None
    case ClientDisconnected => OnClientDisconnected(m)
  }

  /** What the machine's surroundings can bring about: callers call, an attempt that is going on
      ends, a timer that is live goes off, a connection that is open is lost. */
  predicate Possible(m: Machine, input: Input) {
    match input
    case ConnectionMade(_) => m.inProgress
    case ConnectionFailed => m.inProgress
    case Reconnect => m.retryCall.Some?
    case ClientDisconnected => m.live.Some?
    case _ => true
  }

  /** The machine after some inputs; nothing if one of them was impossible, or found no transition. */
  function Run(inputs: seq<Input>): Option<Machine> {
    if inputs == [] then Some(FRESH) else
    var before := Run(inputs[..|inputs| - 1]);
    var input := inputs[|inputs| - 1];
    if before.Some? && Possible(before.value, input) then Next(before.value, input) else None
  }

  /** Every input so far was possible. */
  predicate Feasible(inputs: seq<Input>) {
    inputs == [] ||
    (Feasible(inputs[..|inputs| - 1]) && var before := Run(inputs[..|inputs| - 1]);
     before.Some? ==> Possible(before.value, inputs[|inputs| - 1]))
  }

  // ------------------------------------------------------------------------------ what it keeps

  predicate HasConnection(s: State) { s == Connected || s == Disconnecting || s == Restarting }

  /** A retry timer is live just while waiting, an attempt just while connecting, stop-waiters just
      while disconnecting or restarting, and there is a current connection while one is open. */
  predicate AtRest(m: Machine) {
    && (m.retryCall.Some? <==> m.state == Waiting)
    && (m.inProgress <==> m.state == Connecting)
    && (m.stopWaiters != [] <==> m.state == Disconnecting || m.state == Restarting)
    && (m.live.Some? <==> HasConnection(m.state))
    && (m.live.Some? ==> m.current == m.live)
    && (m.retryCall.Some? ==> m.retryCall == Some(m.failedAttempts))
  }

  function Count(n: nat): seq<nat> { if n == 0 then [] else Count(n - 1) + [n - 1] }

  /** How many later failures a Deferred is asked to survive, at least one. */
  function Patience(k: int): nat { if k < 1 then 1 else k }

  /** The countdown of a waiter is right, and it has not run out. */
  predicate CountsDown(w: Waiter, asked: seq<Ask>, failures: nat) {
    && w.id < |asked| && asked[w.id].at <= failures
    && match asked[w.id].failAfterFailures
       case None => w.remaining == None
       case Some(k) => w.remaining == Some(k - (failures - asked[w.id].at)) && failures < asked[w.id].at + Patience(k)
  }

  /** If a Deferred failed, it was at the failure it was asked to fail at. */
  predicate FiredRightly(f: Fired, asked: seq<Ask>, failures: nat) {
    f.id < |asked| && (f.outcome.Failed? ==> f.outcome.failure <= failures && FailsAt(asked[f.id], f.outcome.failure))
  }

  predicate FailsAt(a: Ask, failure: nat) {
    a.failAfterFailures.Some? && failure == a.at + Patience(a.failAfterFailures.value)
  }

  function Ids(ws: seq<Waiter>): (r: seq<nat>)
    ensures |r| == |ws|
  {
    seq(|ws|, i requires 0 <= i < |ws| => ws[i].id)
  }

  function FiredIds(fired: seq<Fired>): (r: seq<nat>)
    ensures |r| == |fired|
  {
    seq(|fired|, i requires 0 <= i < |fired| => fired[i].id)
  }

  /** Every Deferred asked for either waits or has fired, and only once. */
  ghost predicate Once(ws: seq<Waiter>, fired: seq<Fired>, asked: nat) {
    multiset(Ids(ws)) + multiset(FiredIds(fired)) == multiset(Count(asked))
  }

  /** Every countdown is right. */
  ghost predicate Counted(ws: seq<Waiter>, fired: seq<Fired>, asked: seq<Ask>, failures: nat) {
    && (forall i :: 0 <= i < |ws| ==> CountsDown(ws[i], asked, failures))
    && (forall i :: 0 <= i < |fired| ==> FiredRightly(fired[i], asked, failures))
  }

  ghost predicate Promises(ws: seq<Waiter>, fired: seq<Fired>, asked: seq<Ask>, failures: nat) {
    Once(ws, fired, |asked|) && Counted(ws, fired, asked, failures)
  }

  ghost predicate Inv(m: Machine) {
    && AtRest(m) && m.stopFired + m.stopWaiters == Count(m.stops)
    && Promises(m.awaiting, m.fired, m.asked, m.failures)
    && (m.state == Connected ==> m.awaiting == [])
  }

  // -------------------------------------------------------------------------- that it keeps it

  lemma OneMoreId(a: seq<nat>, b: seq<nat>, n: nat)
    requires multiset(a) + multiset(b) == multiset(Count(n))
    ensures multiset(a + [n]) + multiset(b) == multiset(Count(n + 1))
    ensures multiset(a) + multiset(b + [n]) == multiset(Count(n + 1))
  {
  }

  lemma MoreAsked(ws: seq<Waiter>, fired: seq<Fired>, asked: seq<Ask>, failures: nat, a: Ask)
    requires Counted(ws, fired, asked, failures)
    ensures Counted(ws, fired, asked + [a], failures)
  {
  }

  lemma AskWaits(ws: seq<Waiter>, fired: seq<Fired>, asked: seq<Ask>, failures: nat, k: Option<int>)
    requires Promises(ws, fired, asked, failures)
    ensures Promises(ws + [Waiter(|asked|, k)], fired, asked + [Ask(k, failures)], failures)
  {
    MoreAsked(ws, fired, asked, failures, Ask(k, failures));
    OneMoreId(Ids(ws), FiredIds(fired), |asked|);
    assert Ids(ws + [Waiter(|asked|, k)]) == Ids(ws) + [|asked|];
    hide Ids, FiredIds, Count;
  }

  lemma AskFires(ws: seq<Waiter>, fired: seq<Fired>, asked: seq<Ask>, failures: nat, k: Option<int>, outcome: Outcome)
    requires Promises(ws, fired, asked, failures) && !outcome.Failed?
    ensures Promises(ws, fired + [Fired(|asked|, outcome)], asked + [Ask(k, failures)], failures)
  {
    MoreAsked(ws, fired, asked, failures, Ask(k, failures));
    OneMoreId(Ids(ws), FiredIds(fired), |asked|);
    assert FiredIds(fired + [Fired(|asked|, outcome)]) == FiredIds(fired) + [|asked|];
    hide Ids, FiredIds, Count;
  }

  lemma FiredIdsOfAll(fired: seq<Fired>, ws: seq<Waiter>, outcome: Outcome)
    ensures FiredIds(fired + AllFire(ws, outcome)) == FiredIds(fired) + Ids(ws)
  {
  }

  lemma UnawaitKeeps(ws: seq<Waiter>, fired: seq<Fired>, asked: seq<Ask>, failures: nat, outcome: Outcome)
    requires Promises(ws, fired, asked, failures) && !outcome.Failed?
    ensures Promises([], fired + AllFire(ws, outcome), asked, failures)
  {
    hide Count;
    var fired' := fired + AllFire(ws, outcome);
    assert Once([], fired', |asked|) by {
      assert Ids([]) == [];
      hide Ids, FiredIds, AllFire, Counted;
      FiredIdsOfAll(fired, ws, outcome);
    }
    hide Once, Ids, FiredIds;
    forall i | 0 <= i < |fired'|
      ensures FiredRightly(fired'[i], asked, failures)
    {
      assert i >= |fired| ==> CountsDown(ws[i - |fired|], asked, failures);
    }
  }

  lemma {:induction false} SplitKeepsIds(ws: seq<Waiter>)
    ensures multiset(Ids(NotReady(ws))) + multiset(Ids(Ready(ws))) == multiset(Ids(ws))
  {
    hide Ids;
    if ws != [] {
      var w, rest := ws[0], ws[1..];
      SplitKeepsIds(rest);
      assert ws == [w] + rest;
      OneId(w, rest);
      OneId(w, Ready(rest));
      OneId(OneLess(w), NotReady(rest));
      assert [] + NotReady(rest) == NotReady(rest) && [] + Ready(rest) == Ready(rest);
    }
  }

  lemma OneId(w: Waiter, rest: seq<Waiter>)
    ensures multiset(Ids([w] + rest)) == multiset{w.id} + multiset(Ids(rest))
  {
    assert Ids([w] + rest) == [w.id] + Ids(rest);
  }

  lemma {:induction false} ReadyWaited(ws: seq<Waiter>, asked: seq<Ask>, failures: nat)
    requires forall i :: 0 <= i < |ws| ==> CountsDown(ws[i], asked, failures)
    ensures forall i :: 0 <= i < |Ready(ws)| ==>
              Ready(ws)[i].id < |asked| && FailsAt(asked[Ready(ws)[i].id], failures + 1)
    ensures forall i :: 0 <= i < |NotReady(ws)| ==> CountsDown(NotReady(ws)[i], asked, failures + 1)
  {
    if ws != [] {
      ReadyWaited(ws[1..], asked, failures);
      assert CountsDown(ws[0], asked, failures);
    }
  }

  /** A failure fires exactly the Deferreds whose countdown ends with it. */
  lemma FailureKeeps(ws: seq<Waiter>, fired: seq<Fired>, asked: seq<Ask>, failures: nat)
    requires Promises(ws, fired, asked, failures)
    ensures Promises(NotReady(ws), fired + AllFire(Ready(ws), Failed(failures + 1)), asked, failures + 1)
  {
    hide Count, Ready, NotReady, Ids, FiredIds;
    ReadyWaited(ws, asked, failures);
    var fired' := fired + AllFire(Ready(ws), Failed(failures + 1));
    assert Once(NotReady(ws), fired', |asked|) by {
      hide AllFire, Counted;
      SplitKeepsIds(ws);
      FiredIdsOfAll(fired, Ready(ws), Failed(failures + 1));
    }
    hide Once;
    forall i | 0 <= i < |fired'|
      ensures FiredRightly(fired'[i], asked, failures + 1)
    {
      assert i < |fired| ==> FiredRightly(fired[i], asked, failures);
    }
  }

  /** Whatever its surroundings can bring about, the machine has a transition for it. */
  lemma NextKeeps(m: Machine, input: Input)
    requires Inv(m) && Possible(m, input)
    ensures Next(m, input).Some? && Inv(Next(m, input).value)
  {
    hide Promises, Ids, FiredIds, Ready, NotReady, AllFire;
    match input {
      case Start =>
      case Stop =>
        UnawaitKeeps(m.awaiting, m.fired, m.asked, m.failures, Cancelled);
        assert m.stopFired + (m.stopWaiters + [m.stops]) == Count(m.stops) + [m.stops];
      case WhenConnected(k) =>
        AskWaits(m.awaiting, m.fired, m.asked, m.failures, k);
        AskFires(m.awaiting, m.fired, m.asked, m.failures, k, Cancelled);
        if m.current.Some? {
          AskFires(m.awaiting, m.fired, m.asked, m.failures, k, Got(m.current.value));
        }
      case ConnectionMade(c) => UnawaitKeeps(m.awaiting, m.fired, m.asked, m.failures, Got(c));
      case ConnectionFailed => FailureKeeps(m.awaiting, m.fired, m.asked, m.failures);
      case Reconnect =>
      case ClientDisconnected => UnawaitKeeps(m.awaiting, m.fired, m.asked, m.failures, Cancelled);
    }
  }

  /** Who is left waiting in `Stopped`: only those who asked before a stop that came before any start. */
  predicate LeftWaiting(m: Machine, inputs: seq<Input>) {
    if Start in inputs then m.state != Init && (m.state == Stopped ==> m.awaiting == [])
    else
      && ((m.state == Stopped && inputs != []) || (m.state == Init && (inputs == [] || inputs[0].WhenConnected?)))
      && (m.awaiting != [] <==> inputs != [] && inputs[0].WhenConnected?)
  }

  lemma {:induction false} RunKeeps(inputs: seq<Input>)
    requires Feasible(inputs)
    ensures Run(inputs).Some? && Inv(Run(inputs).value) && LeftWaiting(Run(inputs).value, inputs)
  {
    if inputs == [] {
      assert Ids([]) == [] && FiredIds([]) == [];
    } else {
      hide Inv, LeftWaiting, Next, Possible, AtRest, Promises;
      var before, input := inputs[..|inputs| - 1], inputs[|inputs| - 1];
      RunKeeps(before);
      assert inputs == before + [input];
      StepKeeps(Run(before).value, before, input);
    }
  }

  lemma StepKeeps(m: Machine, before: seq<Input>, input: Input)
    requires Inv(m) && LeftWaiting(m, before) && Possible(m, input)
    ensures Next(m, input).Some? && Inv(Next(m, input).value) && LeftWaiting(Next(m, input).value, before + [input])
  {
    hide Promises, Next, AtRest, LeftWaiting, Possible, Count;
    NextKeeps(m, input);
    StillLeftWaiting(m, before, input);
  }

  lemma StillLeftWaiting(m: Machine, before: seq<Input>, input: Input)
    requires AtRest(m) && LeftWaiting(m, before) && Possible(m, input) && Next(m, input).Some?
    requires m.state == Connected ==> m.awaiting == []
    ensures LeftWaiting(Next(m, input).value, before + [input])
  {
    var inputs := before + [input];
    assert Start in inputs <==> Start in before || input == Start;
    assert inputs[0] == if before == [] then input else before[0];
  }

  // --------------------------------------------------------------------------- what that means

  ghost predicate Outstanding(m: Machine, id: nat) { exists i :: 0 <= i < |m.awaiting| && m.awaiting[i].id == id }

  /** Each Deferred of `whenConnected` fires at most once, and is outstanding until then. */
  lemma FiresAtMostOnce(inputs: seq<Input>, m: Machine, i: nat)
    requires Feasible(inputs) && Run(inputs) == Some(m) && i < |m.fired|
    ensures forall j :: 0 <= j < |m.fired| && j != i ==> m.fired[j].id != m.fired[i].id
    ensures !Outstanding(m, m.fired[i].id)
  {
    RunKeeps(inputs);
    hide Run, Feasible, LeftWaiting, AtRest, Counted, Count;
    var ids, waiting := FiredIds(m.fired), Ids(m.awaiting);
    EachOnce(waiting, ids, |m.asked|);
    assert forall j :: 0 <= j < |ids| ==> m.fired[j].id == ids[j];
    assert forall k :: 0 <= k < |waiting| ==> m.awaiting[k].id == waiting[k];
  }

  lemma EachOnce(a: seq<nat>, b: seq<nat>, n: nat)
    requires multiset(a) + multiset(b) == multiset(Count(n))
    ensures forall i, j :: 0 <= i < j < |b| ==> b[i] != b[j]
    ensures forall i, j :: 0 <= i < |a| && 0 <= j < |b| ==> a[i] != b[j]
  {
    forall j | 0 <= j < |b|
      ensures b[j] !in b[..j] && b[j] !in a
    {
      CountedOnce(n, b[j]);
      assert b == b[..j] + [b[j]] + b[j + 1..];
      assert multiset(b) == multiset(b[..j]) + multiset{b[j]} + multiset(b[j + 1..]);
      assert multiset(a)[b[j]] + multiset(b)[b[j]] <= 1;
    }
    forall i, j | 0 <= i < j < |b|
      ensures b[i] != b[j]
    {
      assert b[i] in b[..j];
    }
  }

  lemma {:induction false} CountedOnce(n: nat, id: nat)
    ensures multiset(Count(n))[id] == if id < n then 1 else 0
  {
    if n > 0 {
      CountedOnce(n - 1, id);
    }
  }

  /** None is outstanding while the machine is connected, nor once it has stopped; with one
      exception: a machine that was stopped before it was ever started forgets those that asked. */
  lemma NoneOutstanding(inputs: seq<Input>, m: Machine)
    requires Feasible(inputs) && Run(inputs) == Some(m)
    ensures m.state == Connected ==> m.awaiting == []
    ensures m.state == Stopped ==> (m.awaiting != [] <==> Start !in inputs && inputs != [] && inputs[0].WhenConnected?)
  {
    RunKeeps(inputs);
  }

  /** It fails, if it fails, at exactly the failure asked for, and does not wait any longer. */
  lemma FailsOnTime(inputs: seq<Input>, m: Machine, id: nat)
    requires Feasible(inputs) && Run(inputs) == Some(m) && id < |m.asked|
    ensures Outstanding(m, id) || exists i :: 0 <= i < |m.fired| && m.fired[i].id == id
    ensures m.asked[id].failAfterFailures.Some? && Outstanding(m, id) ==>
              m.failures < m.asked[id].at + Patience(m.asked[id].failAfterFailures.value)
    ensures forall i :: 0 <= i < |m.fired| && m.fired[i].id == id && m.fired[i].outcome.Failed? ==>
              FailsAt(m.asked[id], m.fired[i].outcome.failure)
  {
    RunKeeps(inputs);
    CountedOnce(|m.asked|, id);
    if id in multiset(Ids(m.awaiting)) {
      var i :| 0 <= i < |m.awaiting| && Ids(m.awaiting)[i] == id;
      assert m.awaiting[i].id == id;
    } else {
      assert id in multiset(FiredIds(m.fired));
      var i :| 0 <= i < |m.fired| && FiredIds(m.fired)[i] == id;
      assert m.fired[i].id == id;
    }
    forall i | 0 <= i < |m.awaiting| && m.awaiting[i].id == id && m.asked[id].failAfterFailures.Some?
      ensures m.failures < m.asked[id].at + Patience(m.asked[id].failAfterFailures.value)
    {
      assert CountsDown(m.awaiting[i], m.asked, m.failures);
    }
  }

  /** The Deferreds of `stop` fire in order, each once: all that are left wait for the open
      connection to close. */
  lemma StopsFireInOrder(inputs: seq<Input>, m: Machine)
    requires Feasible(inputs) && Run(inputs) == Some(m)
    ensures m.stopFired + m.stopWaiters == Count(m.stops)
    ensures m.stopWaiters != [] <==> m.state in {Disconnecting, Restarting}
  {
    RunKeeps(inputs);
  }

  // ------------------------------------------------------------------------------ backoffPolicy

  function Power(base: real, n: nat): real { if n == 0 then 1.0 else base * Power(base, n - 1) }

  /** `policy` without its jitter. A power beyond the largest float raises OverflowError, and then
      the delay is `maxDelay`. */
  function Delay(initialDelay: real, maxDelay: real, factor: real, largest: real, attempt: nat): real {
    var power := Power(factor, if attempt < 100 then attempt else 100);
    if power > largest then maxDelay
    else if initialDelay * power < maxDelay then initialDelay * power
    else maxDelay
  }

  lemma {:induction false} PowerGrows(base: real, m: nat, n: nat)
    requires base >= 1.0 && m <= n
    ensures 1.0 <= Power(base, m) <= Power(base, n)
    decreases n
  {
    if m < n {
      PowerGrows(base, m, n - 1);
      assert base * Power(base, n - 1) >= 1.0 * Power(base, n - 1);
    } else if n > 0 {
      PowerGrows(base, n - 1, n - 1);
      assert base * Power(base, n - 1) >= 1.0 * Power(base, n - 1);
    }
  }

  lemma DelayGrows(initialDelay: real, maxDelay: real, factor: real, largest: real, m: nat, n: nat)
    requires initialDelay >= 0.0 && factor >= 1.0 && m <= n
    ensures Delay(initialDelay, maxDelay, factor, largest, m)
         <= Delay(initialDelay, maxDelay, factor, largest, n) <= maxDelay
  {
    var a, b := if m < 100 then m else 100, if n < 100 then n else 100;
    PowerGrows(factor, a, b);
    assert initialDelay * Power(factor, a) <= initialDelay * Power(factor, b);
  }

  /** A run of failures, each after the retry timer of the one before. */
  function Failing(n: nat): seq<Input> { if n == 0 then [] else Failing(n - 1) + [Reconnect, ConnectionFailed] }

  /** From a machine that waits, each of them leads to a wait at least as long as the one before,
      up to `maxDelay`. */
  lemma {:induction false} WaitsGrow(inputs: seq<Input>, m: Machine, n: nat, initialDelay: real,
        maxDelay: real, factor: real, largest: real)
    requires Feasible(inputs) && Run(inputs) == Some(m) && m.state == Waiting && initialDelay >= 0.0 && factor >= 1.0
    ensures Run(inputs + Failing(n)).Some?
    ensures var m' := Run(inputs + Failing(n)).value;
            && m'.state == Waiting && m'.failedAttempts == m.failedAttempts + n
            && m'.retryCall == Some(m'.failedAttempts)
            && Delay(initialDelay, maxDelay, factor, largest, m.failedAttempts)
            <= Delay(initialDelay, maxDelay, factor, largest, m'.failedAttempts) <= maxDelay
  {
    hide Run, Feasible, Delay;
    DelayGrows(initialDelay, maxDelay, factor, largest, m.failedAttempts, m.failedAttempts + n);
    if n == 0 {
      RunKeeps(inputs);
      assert inputs + [] == inputs;
    } else {
      WaitsGrow(inputs, m, n - 1, initialDelay, maxDelay, factor, largest);
      var before := inputs + Failing(n - 1);
      assert inputs + Failing(n) == before + [Reconnect, ConnectionFailed];
      OneMoreFailure(before, Run(before).value);
    }
  }

  lemma OneMoreFailure(inputs: seq<Input>, m: Machine)
    requires Run(inputs) == Some(m) && m.state == Waiting && m.retryCall.Some?
    ensures Run(inputs + [Reconnect, ConnectionFailed]).Some?
    ensures var m' := Run(inputs + [Reconnect, ConnectionFailed]).value;
            m'.state == Waiting && m'.failedAttempts == m.failedAttempts + 1 && m'.retryCall == Some(m'.failedAttempts)
  {
    hide Ready, NotReady, AllFire;
    var once, twice := inputs + [Reconnect], inputs + [Reconnect, ConnectionFailed];
    assert once[..|once| - 1] == inputs && twice[..|twice| - 1] == once;
    assert Run(once) == Next(m, Reconnect);
  }
}
