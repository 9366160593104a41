/** The client machine as the class is written: every transition enters its state first, and then
    runs its outputs in order. */
module ClientMachine {
  import opened ClientModel
  import opened Prelude

  class Machine {
    var state: State
    var failedAttempts: nat
    var current: Option<nat>
    var awaiting: seq<Waiter>
    var stopWaiters: seq<nat>
    var retryCall: Option<nat>
    var inProgress: bool
    var live: Option<nat>
    ghost var asked: seq<Ask>
    ghost var fired: seq<Fired>
    var failures: nat                   // names the Failure passed in
    var stops: nat
    ghost var stopFired: seq<nat>
    var nextId: nat

    ghost function Model(): ClientModel.Machine
      reads this
    {
      ClientModel.Machine(state, failedAttempts, current, awaiting, stopWaiters, retryCall, inProgress, live,
                          asked, fired, failures, stops, stopFired)
    }

    constructor ()
      ensures Model() == FRESH && nextId == 0
    {
      state, failedAttempts, current, awaiting, stopWaiters := Init, 0, None, [], [];
      retryCall, inProgress, live, stops, nextId := None, false, None, 0, 0;
      asked, fired, failures, stopFired := [], [], 0, [];
    }

    // ---------------------------------------------------------------------------- the inputs

    method Start()
      modifies this
      ensures Model() == OnStart(old(Model())) && nextId == old(nextId)
    {
      match state {
        case Init => state := Connecting; Connect();
        case Stopped => state := Connecting; Connect();
        case Disconnecting => state := Restarting; failedAttempts := 0;
        case _ =>
      }
    }

    /** The Deferred it returns, by number. */
    method Stop() returns (id: nat)
      modifies this
      ensures Model() == OnStop(old(Model())) && id == old(stops) && nextId == old(nextId)
    {
      hide AllFire, Ready, NotReady;
      id := stops;
      match state {
        case Init => state := Stopped; Succeed();
        case Stopped => Succeed();
        case Connecting =>
          state := Disconnecting;
          WaitForStop();
          StopConnecting();
        case Waiting => StopWhileWaiting();
        case Connected =>
          state := Disconnecting;
          WaitForStop();
        case Disconnecting => WaitForStop();
        case Restarting =>
          state := Disconnecting;
          WaitForStop();
      }
    }

    method StopWhileWaiting()
      requires state == Waiting
      modifies this
      ensures Model() == OnStop(old(Model())) && nextId == old(nextId)
    {
      hide AllFire, Ready, NotReady;
      state := Stopped;
      WaitForStop();
      Unawait(Cancelled);
      retryCall := None;
      FinishStopping();
    }

    /** The Deferred it returns, by number. */
    method WhenConnected(k: Option<int>) returns (id: nat)
      requires nextId == |asked| && (state == Connected ==> current.Some?)
      modifies this
      ensures Some(Model()) == OnWhenConnected(old(Model()), k) && id == old(nextId) && nextId == |asked|
    {
      id := nextId;
      nextId := nextId + 1;
      asked := asked + [Ask(k, failures)];
      if state == Connected {
        fired := fired + [Fired(id, Got(current.value))];
      } else if state == Stopped {
        fired := fired + [Fired(id, Cancelled)];
      } else {
        awaiting := awaiting + [Waiter(id, k)];
      }
    }

    method ConnectionMade(c: nat)
      requires state == Connecting
      modifies this
      ensures Some(Model()) == Next(old(Model()), Input.ConnectionMade(c)) && nextId == old(nextId)
    {
      hide AllFire, Ready, NotReady;
      inProgress, live, state := false, Some(c), Connected;
      failedAttempts, current := 0, Some(c);
      Unawait(Got(c));
    }

    method ConnectionFailed()
      requires state == Connecting
      modifies this
      ensures Some(Model()) == OnConnectionFailed(old(Model())) && nextId == old(nextId)
    {
      hide AllFire, Ready, NotReady;
      inProgress, failures, state := false, failures + 1, Waiting;
      DoWait();
      DeliverConnectionFailure();
    }

    method Reconnect()
      requires state == Waiting
      modifies this
      ensures Some(Model()) == Next(old(Model()), Input.Reconnect) && nextId == old(nextId)
    {
      retryCall := None;
      state := Connecting;
      Connect();
    }

    method ClientDisconnected()
      requires current.Some? && HasConnection(state)
      modifies this
      ensures Some(Model()) == OnClientDisconnected(old(Model())) && nextId == old(nextId)
    {
      match state {
        case Connected => DisconnectedConnected();
        case Disconnecting => DisconnectedDisconnecting();
        case Restarting => DisconnectedRestarting();
      }
    }

    method DisconnectedConnected()
      requires state == Connected && current.Some?
      modifies this
      ensures Some(Model()) == OnClientDisconnected(old(Model())) && nextId == old(nextId)
    {
      live, state := None, Waiting;
      current := None;
      DoWait();
    }

    method DisconnectedDisconnecting()
      requires state == Disconnecting && current.Some?
      modifies this
      ensures Some(Model()) == OnClientDisconnected(old(Model())) && nextId == old(nextId)
    {
      hide AllFire;
      live, state := None, Stopped;
      Unawait(Cancelled);
      FinishStopping();
      current := None;
    }

    method DisconnectedRestarting()
      requires state == Restarting && current.Some?
      modifies this
      ensures Some(Model()) == OnClientDisconnected(old(Model())) && nextId == old(nextId)
    {
      live, state := None, Connecting;
      FinishStopping();
      Connect();
    }

    // --------------------------------------------------------------------------- the outputs

    /** `_connect`: an attempt begins. */
    method Connect()
      modifies this`inProgress
      ensures inProgress
    {
      inProgress := true;
    }

    /** `_deferredSucceededWithNone` of `stop`. */
    method Succeed()
      modifies this`stops, this`stopFired
      ensures stops == old(stops) + 1 && stopFired == old(stopFired) + [old(stops)]
    {
      stopFired := stopFired + [stops];
      stops := stops + 1;
    }

    method WaitForStop()
      modifies this`stops, this`stopWaiters
      ensures stops == old(stops) + 1 && stopWaiters == old(stopWaiters) + [old(stops)]
    {
      stopWaiters := stopWaiters + [stops];
      stops := stops + 1;
    }

    /** `_stopConnecting`: the attempt fails at once, with the machine already disconnecting. */
    method StopConnecting()
      modifies this`inProgress, this`state, this`awaiting, this`fired, this`stopWaiters, this`stopFired
      ensures !inProgress && state == Stopped && awaiting == []
      ensures fired == old(fired) + AllFire(old(awaiting), Cancelled)
      ensures stopWaiters == [] && stopFired == old(stopFired) + old(stopWaiters)
    {
      inProgress := false;
      state := Stopped;
      Unawait(Cancelled);
      FinishStopping();
    }

    method DoWait()
      modifies this`failedAttempts, this`retryCall
      ensures failedAttempts == old(failedAttempts) + 1 && retryCall == Some(failedAttempts)
    {
      failedAttempts := failedAttempts + 1;
      retryCall := Some(failedAttempts);
    }

    /** `_doFinishStopping`. */
    method FinishStopping()
      modifies this`stopWaiters, this`stopFired
      ensures stopWaiters == [] && stopFired == old(stopFired) + old(stopWaiters)
    {
      var waiting := stopWaiters;
      stopWaiters := [];
      var i := 0;
      while i < |waiting|
        invariant 0 <= i <= |waiting| && stopWaiters == [] && stopFired == old(stopFired) + waiting[..i]
      {
        assert waiting[..i + 1] == waiting[..i] + [waiting[i]];
        stopFired := stopFired + [waiting[i]];
        i := i + 1;
      }
      assert waiting[..i] == waiting;
    }

    /** `_unawait`. */
    method Unawait(outcome: Outcome)
      modifies this`awaiting, this`fired
      ensures awaiting == [] && fired == old(fired) + AllFire(old(awaiting), outcome)
    {
      var waiting := awaiting;
      awaiting := [];
      FireEach(waiting, outcome);
    }

    method FireEach(waiting: seq<Waiter>, outcome: Outcome)
      modifies this`fired
      ensures fired == old(fired) + AllFire(waiting, outcome)
    {
      var i := 0;
      while i < |waiting|
        invariant 0 <= i <= |waiting| && fired == old(fired) + AllFire(waiting, outcome)[..i]
      {
        fired := fired + [Fired(waiting[i].id, outcome)];
        i := i + 1;
      }
    }

    /** `_deliverConnectionFailure`. */
    method DeliverConnectionFailure()
      modifies this`awaiting, this`fired
      ensures awaiting == NotReady(old(awaiting))
      ensures fired == old(fired) + AllFire(Ready(old(awaiting)), Failed(failures))
    {
      var ready: seq<Waiter>, notReady: seq<Waiter> := [], [];
      var i := 0;
      assert awaiting[0..] == awaiting;
      while i < |awaiting|
        invariant 0 <= i <= |awaiting| && awaiting == old(awaiting) && fired == old(fired)
        invariant ready + Ready(awaiting[i..]) == Ready(awaiting)
        invariant notReady + NotReady(awaiting[i..]) == NotReady(awaiting)
      {
        var w := awaiting[i];
        assert awaiting[i..][1..] == awaiting[i + 1..] && awaiting[i..][0] == w;
        if w.remaining == None {
          notReady := notReady + [w];
        } else if w.remaining.value <= 1 {
          ready := ready + [w];
        } else {
          notReady := notReady + [Waiter(w.id, Some(w.remaining.value - 1))];
        }
        i := i + 1;
      }
      awaiting := notReady;
      FireEach(ready, Failed(failures));
    }
  }
}
