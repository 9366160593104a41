/** The state of the client machine, read off from what has happened to it, and how long it waits. */
module ClientHistory {
  import opened Prelude
  import opened ClientModel

  /** Whether the last call of `start` or `stop` was one of `start`. */
  function Wanted(inputs: seq<Input>): Option<bool> {
    if inputs == [] then None
    else
      match inputs[|inputs| - 1]
      case Start => Some(true)
      case Stop => Some(false)
      case _ => Wanted(inputs[..|inputs| - 1])
  }

  /** The connection that was made and has not been lost. */
  function Open(inputs: seq<Input>): Option<nat> {
    if inputs == [] then None
    else
      match inputs[|inputs| - 1]
      case ConnectionMade(c) => Some(c)
      case ClientDisconnected => None
      case _ => Open(inputs[..|inputs| - 1])
  }

  /** Whether `stop` was called since the last connection was made. */
  function StopCalled(inputs: seq<Input>): bool {
    if inputs == [] then false
    else
      match inputs[|inputs| - 1]
      case ConnectionMade(_) => false
      case Stop => true
      case _ => StopCalled(inputs[..|inputs| - 1])
  }

  /** Whether the last attempt failed, or its connection was lost unasked, and neither a stop nor the
      retry timer has come since. */
  function Paused(inputs: seq<Input>): bool {
    if inputs == [] then false
    else
      var before := inputs[..|inputs| - 1];
      match inputs[|inputs| - 1]
      case ConnectionFailed => true
      case ClientDisconnected => !StopCalled(before)
      case Reconnect => false
      case Stop => false
      case _ => Paused(before)
  }

  /** The failed attempts and the connections lost unasked since the last connection was made. */
  function Attempts(inputs: seq<Input>): nat {
    if inputs == [] then 0
    else
      var before := inputs[..|inputs| - 1];
      match inputs[|inputs| - 1]
      case ConnectionMade(_) => 0
      case ConnectionFailed => Attempts(before) + 1
      case ClientDisconnected => Attempts(before) + if StopCalled(before) then 0 else 1
      case _ => Attempts(before)
  }

  function StateAfter(inputs: seq<Input>): State {
    match Wanted(inputs)
    case None => Init
    case Some(false) => if Open(inputs).Some? then Disconnecting else Stopped
    case Some(true) =>
      if Open(inputs).Some? then (if StopCalled(inputs) then Restarting else Connected)
      else if Paused(inputs) then Waiting else Connecting
  }

  ghost predicate FollowsHistory(m: Machine, inputs: seq<Input>) {
    && m.state == StateAfter(inputs) && m.live == Open(inputs) && m.failedAttempts == Attempts(inputs)
    && (HasConnection(m.state) ==> Attempts(inputs) == 0) && (m.state == Disconnecting ==> StopCalled(inputs))
    && (m.state == Init || m.state == Stopped ==> !Paused(inputs))
  }

  /** In every run the machine does what was last asked of it: it is stopped, or waits to be, after
      `stop`; after `start` it is connected or tries to be; it holds the connection that is open; and
      its retry timer is for as many attempts as have failed since it was last connected. */
  lemma {:induction false} StateFollowsHistory(inputs: seq<Input>, m: Machine)
    requires Feasible(inputs) && Run(inputs) == Some(m)
    ensures FollowsHistory(m, inputs)
    ensures m.inProgress <==> StateAfter(inputs) == Connecting
    ensures m.retryCall == if StateAfter(inputs) == Waiting then Some(Attempts(inputs)) else None
  {
    hide Next, Possible, StateAfter, Attempts, Open, FollowsHistory, Promises, LeftWaiting;
    RunKeeps(inputs);
    if inputs == [] {
      NothingHappened();
    } else {
      var before := inputs[..|inputs| - 1];
      RunKeeps(before);
      StateFollowsHistory(before, Run(before).value);
      StepFollows(Run(before).value, before, inputs[|inputs| - 1]);
      assert inputs == before + [inputs[|inputs| - 1]];
    }
    SaysFollows(m, inputs);
  }

  lemma NothingHappened()
    ensures FollowsHistory(FRESH, [])
  {
  }

  lemma SaysFollows(m: Machine, inputs: seq<Input>)
    requires FollowsHistory(m, inputs)
    ensures m.state == StateAfter(inputs) && m.failedAttempts == Attempts(inputs)
  {
  }

  lemma StepFollows(m: Machine, before: seq<Input>, input: Input)
    requires AtRest(m) && FollowsHistory(m, before) && Possible(m, input) && Next(m, input).Some?
    ensures FollowsHistory(Next(m, input).value, before + [input])
  {
    hide Ready, NotReady, AllFire;
    var inputs := before + [input];
    assert inputs[..|inputs| - 1] == before && inputs[|inputs| - 1] == input;
  }

  // ------------------------------------------------------------------------------ backoffPolicy

  function Capped(x: real, most: real): real { if x < most then x else most }

  /** No power that is asked for is beyond the largest float. */
  ghost predicate NeverOverflows(factor: real, largest: real) {
    forall k: nat :: k <= 100 ==> Power(factor, k) <= largest
  }

  /** The first delay is `initialDelay`, each later one `factor` times the one before, up to `maxDelay`,
      and from the hundredth attempt on it stays the same; unless a power is beyond the largest float. */
  lemma DelayIsGeometric(initialDelay: real, maxDelay: real, factor: real, largest: real, n: nat)
    requires initialDelay >= 0.0 && maxDelay >= 0.0 && factor >= 1.0 && NeverOverflows(factor, largest)
    ensures Delay(initialDelay, maxDelay, factor, largest, 0) == Capped(initialDelay, maxDelay)
    ensures Delay(initialDelay, maxDelay, factor, largest, n + 1)
         == if n < 100 then Capped(factor * Delay(initialDelay, maxDelay, factor, largest, n), maxDelay)
            else Delay(initialDelay, maxDelay, factor, largest, n)
  {
    FirstDelay(initialDelay, maxDelay, factor, largest);
    if n < 100 {
      PowerSteps(factor, n);
      NextDelay(initialDelay, maxDelay, factor, largest, n, Power(factor, n), Power(factor, n + 1));
    }
  }

  lemma FirstDelay(initialDelay: real, maxDelay: real, factor: real, largest: real)
    requires NeverOverflows(factor, largest)
    ensures Delay(initialDelay, maxDelay, factor, largest, 0) == Capped(initialDelay, maxDelay)
  {
    PowerSteps(factor, 0);
    DelayOfPower(initialDelay, maxDelay, factor, largest, 0, 1.0);
  }

  lemma NextDelay(initialDelay: real, maxDelay: real, factor: real, largest: real, n: nat, power: real, next: real)
    requires maxDelay >= 0.0 && factor >= 1.0 && NeverOverflows(factor, largest) && n < 100
    requires power == Power(factor, n) && next == Power(factor, n + 1) && next == factor * power
    ensures Delay(initialDelay, maxDelay, factor, largest, n + 1)
         == Capped(factor * Delay(initialDelay, maxDelay, factor, largest, n), maxDelay)
  {
    hide Delay;
    DelayOfPower(initialDelay, maxDelay, factor, largest, n, power);
    DelayOfPower(initialDelay, maxDelay, factor, largest, n + 1, next);
    CappedGrows(initialDelay, power, next, factor, maxDelay, Delay(initialDelay, maxDelay, factor, largest, n));
  }

  lemma DelayOfPower(initialDelay: real, maxDelay: real, factor: real, largest: real, n: nat, power: real)
    requires power == Power(factor, if n < 100 then n else 100) && power <= largest
    ensures Delay(initialDelay, maxDelay, factor, largest, n) == Capped(initialDelay * power, maxDelay)
  {
  }

  lemma PowerSteps(factor: real, n: nat)
    ensures Power(factor, 0) == 1.0 && Power(factor, n + 1) == factor * Power(factor, n)
  {
  }

  lemma CappedGrows(a: real, power: real, next: real, factor: real, most: real, delay: real)
    requires factor >= 1.0 && most >= 0.0 && next == factor * power && delay == Capped(a * power, most)
    ensures Capped(a * next, most) == Capped(factor * delay, most)
  {
    var x := a * power;
    assert a * next == factor * x;
    if x >= most {
      ProductGrows(factor, most, x);
      ProductGrows(most, 1.0, factor);
    }
  }

  lemma ProductGrows(a: real, x: real, y: real)
    requires a >= 0.0 && x <= y
    ensures a * x <= a * y && a * x == x * a && a * y == y * a
  {
    var d := y - x;
    assert a * d >= 0.0;
    assert a * y == a * x + a * d;
  }

  /** Where the power is beyond the largest float, it is `maxDelay` at once. */
  lemma OverflowIsMaxDelay(initialDelay: real, maxDelay: real, factor: real, largest: real, n: nat)
    requires n <= 100 && Power(factor, n) > largest
    ensures Delay(initialDelay, maxDelay, factor, largest, n) == maxDelay
  {
  }
}
