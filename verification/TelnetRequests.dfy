/** What the Deferred of a request tells the application: it fires with True exactly if its option
    takes the value that was asked for, at the command that ends the negotiation. */
module TelnetRequests {
  import opened Prelude
  import opened TelnetWire
  import opened TelnetOptions
  import opened TelnetEnd
  import opened TelnetSession

  /** What can happen to the negotiation at one end; `Output` stands for all that only adds to the
      output or takes from it. */
  datatype Turn =
    | Asked(option: byte, side: Side, enable: bool)
    | Heard(code: byte, option: byte)
    | Output(outbox: seq<byte>)

  function Take(n: Negotiator, turn: Turn): Negotiator {
    match turn
    case Asked(option, side, enable) => AskPeer(n, option, side, enable).0
    case Heard(code, option) => OnCommand(n, code, option).0
    case Output(outbox) => n.(outbox := outbox)
  }

  function TakeAll(n: Negotiator, turns: seq<Turn>): Negotiator {
    if turns == [] then n else Take(TakeAll(n, turns[..|turns| - 1]), turns[|turns| - 1])
  }

  datatype Wish = Wish(id: nat, option: byte, side: Side, enable: bool)

  /** The request is under way, and its option has not taken the value. */
  predicate Awaits(n: Negotiator, r: Wish) {
    var p := n.View(r.option, r.side);
    p.negotiating && p.onResult == Some(r.id) && p.enabled == !r.enable
  }

  lemma TakeKeepsAccounts(n: Negotiator, turn: Turn)
    requires Accounted(n)
    ensures Accounted(Take(n, turn)) && n.fired <= Take(n, turn).fired
  {
    match turn {
      case Asked(option, side, enable) => AskKeepsAccounts(n, option, side, enable);
      case Heard(code, option) => HearKeepsAccounts(n, code, option);
      case Output(outbox) =>
        var n' := n.(outbox := outbox);
        assert forall o, s :: n'.View(o, s) == n.View(o, s);
        SameViewsSameAccounts(n, n');
    }
  }

  lemma AskingAwaits(n: Negotiator, option: byte, side: Side, enable: bool)
    requires AskPeer(n, option, side, enable).1.Pending?
    ensures var (n', answer) := AskPeer(n, option, side, enable);
            Awaits(n', Wish(answer.request, option, side, enable)) && n'.fired == n.fired
  {
    var (n', _) := AskPeer(n, option, side, enable);
    PutView(n, option, side, n'.View(option, side));
  }

  function OutcomeOf(taken: bool): Outcome { if taken then Granted else Refused }

  /** Once a negotiation has ended: whether the option has the value that was asked for. */
  function Took(n: Negotiator, r: Wish): Option<bool> {
    var p := n.View(r.option, r.side);
    if p.negotiating then None else Some(p.enabled == r.enable)
  }

  /** The turn that ends the negotiation, and whether it gives the option that value. */
  ghost predicate EndsAt(n: Negotiator, turns: seq<Turn>, p: nat, r: Wish, taken: bool) {
    p < |turns| && Awaits(TakeAll(n, turns[..p]), r) && Took(TakeAll(n, turns[..p + 1]), r) == Some(taken)
  }

  lemma NotYet(n: Negotiator, r: Wish)
    requires Accounted(n) && Awaits(n, r)
    ensures !HasFired(n, r.id) && forall outcome :: Firing(r.id, outcome) !in n.fired
    ensures forall p, taken :: !EndsAt(n, [], p, r, taken)
  {
    assert forall f :: f in n.fired ==> HasFired(n, f.request);
  }

  /** A request goes on being under way until a command about it comes; that fires its Deferred,
      with what has become of the option. */
  lemma AwaitsOrFires(n: Negotiator, turn: Turn, r: Wish)
    requires Accounted(n) && Awaits(n, r)
    ensures var n' := Take(n, turn);
            if Awaits(n', r) then !HasFired(n', r.id)
            else Took(n', r).Some? && n'.fired == n.fired + [Firing(r.id, OutcomeOf(Took(n', r).value))]
  {
    hide Accounted, Ledger;
    var n' := Take(n, turn);
    TakeKeepsAccounts(n, turn);
    if Awaits(n', r) {
      NotYet(n', r);
    }
    if !turn.Output? {
      var side := if turn.Heard? then HeardSide(turn.code) else turn.side;
      PutView(n, turn.option, side, n'.View(turn.option, side));
      TouchView(n, turn.option);
    }
  }

  lemma OneMoreTurn(n: Negotiator, before: seq<Turn>, turn: Turn, r: Wish, taken: bool)
    ensures (exists p :: EndsAt(n, before + [turn], p, r, taken)) <==>
              (exists p :: EndsAt(n, before, p, r, taken))
              || (Awaits(TakeAll(n, before), r) && Took(TakeAll(n, before + [turn]), r) == Some(taken))
  {
    hide Awaits, Took, TakeAll;
    var turns, k := before + [turn], |before|;
    assert turns[..k] == before && turns[..k + 1] == turns;
    forall p: nat | p < k
      ensures EndsAt(n, turns, p, r, taken) <==> EndsAt(n, before, p, r, taken)
    {
      assert before[..p] == turns[..p] && before[..p + 1] == turns[..p + 1];
    }
    if Awaits(TakeAll(n, before), r) && Took(TakeAll(n, turns), r) == Some(taken) {
      assert EndsAt(n, turns, k, r, taken);
    }
  }

  /** What has fired does not fire again, nor is it under way. */
  lemma FiredStays(n: Negotiator, n': Negotiator, r: Wish)
    requires Accounted(n') && n.fired <= n'.fired && HasFired(n, r.id)
    ensures HasFired(n', r.id) && !Awaits(n', r)
    ensures forall f: Firing :: f.request == r.id ==> (f in n'.fired <==> f in n.fired)
  {
    var i :| 0 <= i < |n.fired| && n.fired[i].request == r.id;
    assert n'.fired[i].request == r.id;
    assert forall j :: 0 <= j < |n'.fired| && n'.fired[j].request == r.id ==> j == i;
  }

  /** The turn that ends the negotiation, if this is it, fires the Deferred with what was taken. */
  lemma FiredOrNot(n: Negotiator, n': Negotiator, r: Wish)
    requires Accounted(n') && !HasFired(n, r.id) && n.fired <= n'.fired
    requires if Awaits(n', r) then !HasFired(n', r.id)
             else Took(n', r).Some? && n'.fired == n.fired + [Firing(r.id, OutcomeOf(Took(n', r).value))]
    ensures HasFired(n', r.id) <==> !Awaits(n', r)
    ensures forall taken :: Firing(r.id, OutcomeOf(taken)) in n'.fired <==> Took(n', r) == Some(taken)
    ensures Firing(r.id, Disconnected) !in n'.fired
  {
    assert forall outcome :: Firing(r.id, outcome) in n.fired ==> HasFired(n, r.id);
    assert forall outcome :: Firing(r.id, outcome) in n'.fired ==> HasFired(n', r.id);
    if !Awaits(n', r) {
      assert n'.fired[|n.fired|].request == r.id;
    }
  }

  /** Whatever happens at this end after the request: its Deferred fires with True exactly if the
      option took the value asked for when the negotiation ended, with OptionRefused exactly if it did
      not, and has not fired exactly while the negotiation goes on. */
  lemma {:induction false} GrantedIffTaken(n: Negotiator, turns: seq<Turn>, r: Wish)
    requires Accounted(n) && Awaits(n, r)
    ensures Accounted(TakeAll(n, turns)) && n.fired <= TakeAll(n, turns).fired
    ensures HasFired(TakeAll(n, turns), r.id) <==> !Awaits(TakeAll(n, turns), r)
    ensures forall taken :: Firing(r.id, OutcomeOf(taken)) in TakeAll(n, turns).fired <==>
                              exists p :: EndsAt(n, turns, p, r, taken)
    ensures Firing(r.id, Disconnected) !in TakeAll(n, turns).fired
    decreases |turns|
  {
    hide Take, Accounted, Ledger, Awaits, Took, EndsAt;
    if turns == [] {
      NotYet(n, r);
    } else {
      var before, turn := turns[..|turns| - 1], turns[|turns| - 1];
      var m, m' := TakeAll(n, before), TakeAll(n, turns);
      GrantedIffTaken(n, before, r);
      TakeKeepsAccounts(m, turn);
      assert turns == before + [turn];
      OneMoreTurn(n, before, turn, r, true);
      OneMoreTurn(n, before, turn, r, false);
      if Awaits(m, r) {
        AwaitsOrFires(m, turn, r);
        NotYet(m, r);
        FiredOrNot(m, m', r);
      } else {
        FiredStays(m, m', r);
      }
    }
  }

  // ------------------------------------------------------------------ only what is allowed

  /** An option is enabled, or about to be, only with the application's consent. */
  ghost predicate WithConsent(n: Negotiator, turns: seq<Turn>) {
    forall o, s :: var p := n.View(o, s);
      && (p.enabled ==> n.policy.Accepts(s, o) || Asked(o, s, true) in turns)
      && (p.negotiating && !p.enabled ==> Asked(o, s, true) in turns)
  }

  lemma TakeKeepsConsent(n: Negotiator, before: seq<Turn>, turn: Turn)
    requires Accounted(n) && WithConsent(n, before)
    ensures WithConsent(Take(n, turn), before + [turn]) && Take(n, turn).policy == n.policy
  {
    hide Accounted, Ledger;
    var n' := Take(n, turn);
    if turn.Asked? {
      RequestIsTakenUpIff(n, turn.option, turn.side, turn.enable);
    } else if turn.Heard? {
      OthersUnchanged(n, turn.code, turn.option);
      PutView(n, turn.option, HeardSide(turn.code), n'.View(turn.option, HeardSide(turn.code)));
      TouchView(n, turn.option);
    }
  }

  /** Whatever a peer sends, an option is enabled only if the application's policy allows it, or if the
      application itself has asked to enable it. */
  lemma {:induction false} EnabledWithConsent(policy: Policy, turns: seq<Turn>)
    ensures var n := TakeAll(Negotiator(policy, map[], [], 0, []), turns);
            && Accounted(n) && WithConsent(n, turns) && n.policy == policy
            && (forall o :: n.View(o, Him).enabled ==> o in policy.remote || Asked(o, Him, true) in turns)
            && (forall o :: n.View(o, Us).enabled ==> o in policy.local || Asked(o, Us, true) in turns)
    decreases |turns|
  {
    if turns != [] {
      hide Take, Accounted;
      var before, turn := turns[..|turns| - 1], turns[|turns| - 1];
      EnabledWithConsent(policy, before);
      var m := TakeAll(Negotiator(policy, map[], [], 0, []), before);
      TakeKeepsAccounts(m, turn);
      TakeKeepsConsent(m, before, turn);
      assert turns == before + [turn];
    }
  }

  // ------------------------------------------------------------------------- two joined ends

  lemma {:induction false} TakeAllAppend(n: Negotiator, a: seq<Turn>, b: seq<Turn>)
    ensures TakeAll(n, a + b) == TakeAll(TakeAll(n, a), b)
    decreases |b|
  {
    if b == [] {
      assert a + b == a;
    } else {
      assert (a + b)[..|a + b| - 1] == a + b[..|b| - 1];
      TakeAllAppend(n, a, b[..|b| - 1]);
    }
  }

  /** All that input does to the negotiation is to make it hear commands. */
  lemma {:induction false} ReceivingIsTurns(e: End, buf: seq<byte>, data: seq<byte>) returns (turns: seq<Turn>)
    ensures Receive(e, buf, data).0.neg == TakeAll(e.neg, turns) && forall turn :: turn in turns ==> turn.Heard?
    decreases |data|
  {
    turns := [];
    if data != [] {
      var a := React(e.parser, data[0]);
      var (e1, buf1, f) := ReceiveByte(e, buf, data[0]);
      if a.Emit? && IsHeard(a.event) {
        turns := [Heard(a.event.code, a.event.argument.value)];
      }
      assert e1.neg == TakeAll(e.neg, turns);
      if f.NoFault? {
        var rest := ReceivingIsTurns(e1, buf1, data[1..]);
        TakeAllAppend(e.neg, turns, rest);
        turns := turns + rest;
      }
    }
  }

  /** What was asked at this end was asked for in the run. */
  ghost predicate AskedIn(turns: seq<Turn>, acts: seq<Act>, atA: bool) {
    forall turn :: turn in turns && turn.Asked? ==> Negotiation(atA, turn.option, turn.side, turn.enable) in acts
  }

  /** Nor does a whole run of two joined ends do anything else to the negotiation at one of them. */
  lemma {:induction false} RunningIsTurns(s: Session, acts: seq<Act>) returns (a: seq<Turn>, b: seq<Turn>)
    requires AllAllowed(s, acts)
    ensures Final(s, acts).a.neg == TakeAll(s.a.neg, a) && Final(s, acts).b.neg == TakeAll(s.b.neg, b)
    ensures AskedIn(a, acts, true) && AskedIn(b, acts, false)
    decreases |acts|
  {
    a, b := [], [];
    if acts != [] {
      var a0, b0 := StepIsTurns(s, acts[0]);
      a, b := RunningIsTurns(Step(s, acts[0]).0, acts[1..]);
      TakeAllAppend(s.a.neg, a0, a);
      TakeAllAppend(s.b.neg, b0, b);
      a, b := a0 + a, b0 + b;
    }
  }

  lemma StepIsTurns(s: Session, act: Act) returns (a: seq<Turn>, b: seq<Turn>)
    requires Allowed(s, act)
    ensures Step(s, act).0.a.neg == TakeAll(s.a.neg, a) && Step(s, act).0.b.neg == TakeAll(s.b.neg, b)
    ensures AskedIn(a, [act], true) && AskedIn(b, [act], false)
  {
    hide Receive, AskPeer;
    var t := if act.atA then s else Swap(s);
    var t' := StepA(t, act).0;
    match act {
      case Negotiation(_, option, side, enable) => a, b := [Asked(option, side, enable)], [];
      case Output(_, item) => a, b := [Turn.Output(t.a.neg.outbox + PrintItem(item))], [];
      case Delivery(_, n) =>
        a := ReceivingIsTurns(t.a, [], t.b.neg.outbox[..n]);
        b := [Turn.Output(t.b.neg.outbox[n..])];
    }
    if !act.atA {
      a, b := b, a;
    }
  }

  /** In any run of two joined ends, after a request at the first: it fires with True exactly if its
      option took the value asked for when its negotiation ended, and otherwise with OptionRefused;
      and when nothing is in flight, one of these has happened. */
  lemma GrantedIffTakenInRuns(s: Session, option: byte, side: Side, enable: bool, acts: seq<Act>)
        returns (r: Wish, turns: seq<Turn>)
    requires Sound(s.a, s.b) && AllAllowed(s, [Negotiation(true, option, side, enable)] + acts)
    requires AskPeer(s.a.neg, option, side, enable).1.Pending?
    ensures r == Wish(AskPeer(s.a.neg, option, side, enable).1.request, option, side, enable)
    ensures var n := AskPeer(s.a.neg, option, side, enable).0;
            var t := Final(s, [Negotiation(true, option, side, enable)] + acts);
            && t.a.neg == TakeAll(n, turns) && Firing(r.id, Disconnected) !in t.a.neg.fired
            && (Firing(r.id, Granted) in t.a.neg.fired <==> exists p :: EndsAt(n, turns, p, r, true))
            && (Firing(r.id, Refused) in t.a.neg.fired <==> exists p :: EndsAt(n, turns, p, r, false))
            && (Quiet(t) ==> HasFired(t.a.neg, r.id))
  {
    hide AskPeer, TakeAll, EndsAt, Accounted, CoherentAt, Coming, Willing, Receive;
    var ask := Negotiation(true, option, side, enable);
    var s1 := Step(s, ask).0;
    assert ([ask] + acts)[1..] == acts;
    r := Wish(AskPeer(s.a.neg, option, side, enable).1.request, option, side, enable);
    AskingAwaits(s.a.neg, option, side, enable);
    AskKeepsAccounts(s.a.neg, option, side, enable);
    var mine, _ := RunningIsTurns(s1, acts);
    turns := mine;
    GrantedIffTaken(s1.a.neg, turns, r);
    assert OutcomeOf(true) == Granted && OutcomeOf(false) == Refused;
    RunStaysSound(s, [ask] + acts);
    var t := Final(s, [ask] + acts);
    if Quiet(t) {
      QuietIsSettled(t);
    }
  }

  lemma {:induction false} AllowedRequests(s: Session, acts: seq<Act>, atA: bool, o: byte)
    requires AllAllowed(s, acts) && Negotiation(atA, o, Him, true) in acts
    ensures o in (if atA then s.a else s.b).neg.policy.remote
    decreases |acts|
  {
    if Negotiation(atA, o, Him, true) in acts[1..] {
      AllowedRequests(Step(s, acts[0]).0, acts[1..], atA, o);
      var a, b := StepIsTurns(s, acts[0]);
      PolicyStays(s.a.neg, a);
      PolicyStays(s.b.neg, b);
    }
  }

  lemma {:induction false} PolicyStays(n: Negotiator, turns: seq<Turn>)
    ensures TakeAll(n, turns).policy == n.policy
    decreases |turns|
  {
    if turns != [] {
      PolicyStays(n, turns[..|turns| - 1]);
    }
  }

  /** In every run from a fresh connection an end has its peer enable only what the application allows,
      and itself only what the application allows or has asked for. */
  lemma EnabledWithConsentInRuns(policyA: Policy, policyB: Policy, acts: seq<Act>, atA: bool)
    requires AllAllowed(Start(policyA, policyB), acts)
    ensures var t, policy := Final(Start(policyA, policyB), acts), if atA then policyA else policyB;
            var n := if atA then t.a.neg else t.b.neg;
            && (forall o :: n.View(o, Him).enabled ==> o in policy.remote)
            && (forall o :: n.View(o, Us).enabled ==> o in policy.local || Negotiation(atA, o, Us, true) in acts)
  {
    var s := Start(policyA, policyB);
    var a, b := RunningIsTurns(s, acts);
    EnabledWithConsent(policyA, a);
    EnabledWithConsent(policyB, b);
    hide TakeAll, Accounted, WithConsent, AllAllowed, Final;
    forall o | Negotiation(atA, o, Him, true) in acts
      ensures o in (if atA then policyA else policyB).remote
    {
      AllowedRequests(s, acts, atA, o);
    }
  }
}
