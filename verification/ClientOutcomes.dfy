/** Which input decides how a Deferred of `whenConnected` fires, and that nothing else does. */
module ClientOutcomes {
  import opened Prelude
  import opened ClientModel

  /** What an input makes of a Deferred that is outstanding: a connection is handed to it; a stop,
      or the end of a connection that was being stopped, cancels it; a failure fails it if that is
      the one it was asked to fail at. */
  function Fate(m: Machine, id: nat, input: Input): Option<Outcome>
    requires id < |m.asked|
  {
    match input
    case ConnectionMade(c) => Some(Got(c))
    case Stop => if m.state == Connecting || m.state == Waiting then Some(Cancelled) else None
    case ClientDisconnected => if m.state == Disconnecting then Some(Cancelled) else None
    case ConnectionFailed => if FailsAt(m.asked[id], m.failures + 1) then Some(Failed(m.failures + 1)) else None
    case _ => None
  }

  /** What becomes at once of a Deferred that is asked for now. */
  function AtOnce(m: Machine): Option<Outcome> {
    match m.state
    case Connected => if m.current.Some? then Some(Got(m.current.value)) else None
    case Stopped => Some(Cancelled)
    case _ => None
  }

  /** The input is what makes this Deferred fire. */
  ghost predicate Decides(m: Machine, input: Input, f: Fired) {
    || (f.id < |m.asked| && Outstanding(m, f.id) && Fate(m, f.id, input) == Some(f.outcome))
    || (f.id == |m.asked| && input.WhenConnected? && AtOnce(m) == Some(f.outcome))
  }

  ghost predicate DecidedAt(inputs: seq<Input>, p: nat, f: Fired) {
    p < |inputs| && Run(inputs[..p]).Some? && Decides(Run(inputs[..p]).value, inputs[p], f)
  }

  lemma {:induction false} ReadyOnes(ws: seq<Waiter>)
    ensures forall w :: w in Ready(ws) <==> w in ws && IsReady(w)
    ensures forall w :: w in ws && !IsReady(w) ==> OneLess(w) in NotReady(ws)
  {
    if ws != [] {
      ReadyOnes(ws[1..]);
      assert ws == [ws[0]] + ws[1..];
    }
  }

  lemma ReadyIffDue(w: Waiter, asked: seq<Ask>, failures: nat)
    requires CountsDown(w, asked, failures)
    ensures IsReady(w) <==> FailsAt(asked[w.id], failures + 1)
  {
  }

  lemma AllOfThem(fired: seq<Fired>, ws: seq<Waiter>, outcome: Outcome, f: Fired)
    ensures (fired + AllFire(ws, outcome))[|fired|..] == AllFire(ws, outcome)
    ensures f in AllFire(ws, outcome) <==> f.outcome == outcome && exists i :: 0 <= i < |ws| && ws[i].id == f.id
  {
    if f.outcome == outcome && exists i :: 0 <= i < |ws| && ws[i].id == f.id {
      var i :| 0 <= i < |ws| && ws[i].id == f.id;
      assert AllFire(ws, outcome)[i] == f;
    }
  }

  /** The Deferreds that fire now are those for which this input decides it. */
  lemma NewlyFired(m: Machine, input: Input, f: Fired)
    requires Inv(m) && Possible(m, input) && Next(m, input).Some?
    ensures m.fired <= Next(m, input).value.fired
    ensures f in Next(m, input).value.fired[|m.fired|..] <==> Decides(m, input, f)
  {
    hide Once, Ready, NotReady, AllFire, FailsAt;
    match input {
      case Stop => AllOfThem(m.fired, m.awaiting, Cancelled, f);
      case ConnectionMade(c) => AllOfThem(m.fired, m.awaiting, Got(c), f);
      case ClientDisconnected => AllOfThem(m.fired, m.awaiting, Cancelled, f);
      case ConnectionFailed => FailedNow(m, f);
      case _ =>
    }
    WaitersWereAsked(m, f.id);
  }

  lemma WaitersWereAsked(m: Machine, id: nat)
    requires Inv(m)
    ensures Outstanding(m, id) ==> id < |m.asked|
  {
    assert forall i :: 0 <= i < |m.awaiting| ==> CountsDown(m.awaiting[i], m.asked, m.failures);
  }

  lemma FailedNow(m: Machine, f: Fired)
    requires Inv(m) && m.state == Connecting
    ensures f in OnConnectionFailed(m).value.fired[|m.fired|..] <==>
              Outstanding(m, f.id) && f.id < |m.asked| && FailsAt(m.asked[f.id], m.failures + 1)
              && f.outcome == Failed(m.failures + 1)
  {
    hide Once, FailsAt, Ready, NotReady, AllFire;
    var ready := Ready(m.awaiting);
    AllOfThem(m.fired, ready, Failed(m.failures + 1), f);
    ReadyOnes(m.awaiting);
    forall w | w in m.awaiting
      ensures w.id < |m.asked| && (IsReady(w) <==> FailsAt(m.asked[w.id], m.failures + 1))
    {
      var i :| 0 <= i < |m.awaiting| && m.awaiting[i] == w;
      ReadyIffDue(m.awaiting[i], m.asked, m.failures);
    }
    assert forall i :: 0 <= i < |ready| ==> ready[i] in ready;
    assert forall i :: 0 <= i < |m.awaiting| ==> m.awaiting[i] in m.awaiting;
    if Outstanding(m, f.id) && FailsAt(m.asked[f.id], m.failures + 1) {
      var i :| 0 <= i < |m.awaiting| && m.awaiting[i].id == f.id;
      var j :| 0 <= j < |ready| && ready[j] == m.awaiting[i];
      assert ready[j].id == f.id;
    }
  }

  /** The others stay outstanding. */
  lemma StillOutstanding(m: Machine, input: Input, id: nat)
    requires Inv(m) && Possible(m, input) && Next(m, input).Some?
    requires id < |m.asked| && Outstanding(m, id) && Fate(m, id, input) == None
    ensures Outstanding(Next(m, input).value, id)
  {
    hide Once, Ready, NotReady, AllFire, FailsAt;
    var m' := Next(m, input).value;
    var i :| 0 <= i < |m.awaiting| && m.awaiting[i].id == id;
    var w := m.awaiting[i];
    if input.ConnectionFailed? {
      ReadyOnes(m.awaiting);
      ReadyIffDue(w, m.asked, m.failures);
      assert w in m.awaiting && OneLess(w) in m'.awaiting;
      var j :| 0 <= j < |m'.awaiting| && m'.awaiting[j] == OneLess(w);
      assert m'.awaiting[j].id == id;
    } else {
      assert m'.awaiting[i].id == id;
    }
  }

  lemma OneMoreInput(before: seq<Input>, input: Input, f: Fired)
    requires Run(before).Some?
    ensures (exists p :: DecidedAt(before + [input], p, f)) <==>
              (exists p :: DecidedAt(before, p, f)) || Decides(Run(before).value, input, f)
  {
    hide Decides, Run;
    var inputs, n := before + [input], |before|;
    assert inputs[..n] == before;
    forall p: nat | p < n
      ensures DecidedAt(inputs, p, f) <==> DecidedAt(before, p, f)
    {
      assert before[..p] == inputs[..p];
    }
    if Decides(Run(before).value, input, f) {
      assert DecidedAt(inputs, n, f);
    }
  }

  /** A Deferred has fired with an outcome exactly if some input decided that. */
  lemma {:induction false} FiredBecause(inputs: seq<Input>, m: Machine, f: Fired)
    requires Feasible(inputs) && Run(inputs) == Some(m)
    ensures f in m.fired <==> exists p :: DecidedAt(inputs, p, f)
  {
    hide Decides, Next, Possible, Inv, LeftWaiting;
    if inputs != [] {
      var n := |inputs| - 1;
      var before, input := inputs[..n], inputs[n];
      RunKeeps(before);
      var m0 := Run(before).value;
      NewlyFired(m0, input, f);
      FiredBecause(before, m0, f);
      hide Run, Feasible, DecidedAt;
      OneMoreInput(before, input, f);
      assert inputs == before + [input];
      assert m.fired == m0.fired + m.fired[|m0.fired|..];
    }
  }

  ghost predicate TriesOn(s: State) { s in {Init, Connecting, Waiting, Restarting} }

  /** The Deferred fires when the failures reach what was asked for, and waits until then. */
  ghost predicate FailsInTime(m: Machine, id: nat, a: Ask) {
    && TriesOn(m.state) && id < |m.asked| && m.asked[id] == a
    && if a.failAfterFailures.Some? && m.failures >= a.at + Patience(a.failAfterFailures.value)
       then Fired(id, Failed(a.at + Patience(a.failAfterFailures.value))) in m.fired
       else Outstanding(m, id)
  }

  lemma StillInTime(m: Machine, input: Input, id: nat, a: Ask)
    requires Inv(m) && Possible(m, input) && Next(m, input).Some? && FailsInTime(m, id, a)
    requires !input.ConnectionMade? && !input.Stop?
    ensures FailsInTime(Next(m, input).value, id, a)
  {
    hide Promises, NotReady, Ready, AllFire;
    var m' := Next(m, input).value;
    assert TriesOn(m'.state) && m'.asked[id] == a && m'.failures <= m.failures + 1;
    if Outstanding(m, id) {
      var fate := Fate(m, id, input);
      if fate == None {
        StillOutstanding(m, input, id);
      } else {
        var f := Fired(id, fate.value);
        NewlyFired(m, input, f);
        assert f in m'.fired;
      }
    }
    NewlyFired(m, input, Fired(id, Cancelled));
  }

  /** Without a connection or a stop from then on, a Deferred that is asked for while there is no
      connection, and none is being given up, fails at exactly the failure it was asked to fail at,
      and is outstanding until that; or for ever, if it was asked to survive them all. */
  lemma {:induction false} FailsUnlessConnectedOrStopped(before: seq<Input>, k: Option<int>, rest: seq<Input>)
    requires Feasible(before + [WhenConnected(k)] + rest)
    requires Run(before).Some? && TriesOn(Run(before).value.state)
    requires forall i :: 0 <= i < |rest| ==> !rest[i].ConnectionMade? && !rest[i].Stop?
    ensures Run(before + [WhenConnected(k)] + rest).Some?
    ensures var m0, m := Run(before).value, Run(before + [WhenConnected(k)] + rest).value;
            FailsInTime(m, |m0.asked|, Ask(k, m0.failures))
    decreases |rest|
  {
    hide Possible, Inv, LeftWaiting;
    var inputs := before + [WhenConnected(k)] + rest;
    var m0 := Run(before).value;
    var n := |inputs| - 1;
    RunKeeps(inputs);
    RunKeeps(inputs[..n]);
    if rest == [] {
      assert inputs[..n] == before;
      assert Run(inputs).value.awaiting[|m0.awaiting|].id == |m0.asked|;
    } else {
      var shorter := rest[..|rest| - 1];
      assert inputs[..n] == before + [WhenConnected(k)] + shorter;
      FailsUnlessConnectedOrStopped(before, k, shorter);
      hide Next;
      StillInTime(Run(inputs[..n]).value, inputs[n], |m0.asked|, Ask(k, m0.failures));
    }
  }
}
