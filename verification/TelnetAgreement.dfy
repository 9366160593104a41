/** What two joined ends agree on is decided when it is asked for: by the request, by what the
    application of the other end allows, and by nothing that happens later. */
module TelnetAgreement {
  import opened Prelude
  import opened TelnetWire
  import opened TelnetOptions
  import opened TelnetEnd
  import opened TelnetSession

  lemma EndIsSymmetric(x: End, y: End)
    requires Sound(x, y)
    ensures forall o, s :: Eventually(y, x, o, Other(s)) == Eventually(x, y, o, s)
  {
    forall o, s
      ensures Eventually(y, x, o, Other(s)) == Eventually(x, y, o, s)
    {
      assert CoherentAt(x, y, o, s) && Other(Other(s)) == s;
    }
  }

  lemma SameEndSwaps(x: End, y: End, x1: End, y1: End)
    requires Sound(x, y) && Sound(x1, y1) && SameEnd(x, y, x1, y1)
    ensures SameEnd(y, x, y1, x1)
  {
    EndIsSymmetric(x, y);
    EndIsSymmetric(x1, y1);
    forall o, s
      ensures Eventually(y1, x1, o, s) == Eventually(y, x, o, s)
    {
      assert Other(Other(s)) == s;
      assert Eventually(y1, x1, o, Other(Other(s))) == Eventually(x1, y1, o, Other(s));
      assert Eventually(y, x, o, Other(Other(s))) == Eventually(x, y, o, Other(s));
    }
  }

  /** The other end has a request for the same under way. */
  predicate AskedToo(x: End, y: End, option: byte, side: Side) {
    y.neg.View(option, Other(side)).negotiating && Said(Coming(x, y).tokens, option, side) != []
  }

  predicate PeerAllows(y: End, option: byte, side: Side) {
    option in if side.Him? then y.neg.policy.local else y.neg.policy.remote
  }

  /** A request that is taken up decides about its option and side, and about nothing else. */
  lemma AskingDecides(x: End, y: End, option: byte, side: Side, enable: bool)
    requires Sound(x, y) && AskPeer(x.neg, option, side, enable).1.Pending?
    ensures var x' := x.(neg := AskPeer(x.neg, option, side, enable).0);
            forall o, s :: Eventually(x', y, o, s) ==
              if o == option && s == side then enable && (PeerAllows(y, option, side) || AskedToo(x, y, option, side))
              else Eventually(x, y, o, s)
  {
    hide InTheEnd;
    var n' := AskPeer(x.neg, option, side, enable).0;
    var x' := x.(neg := n');
    var p, p' := x.neg.View(option, side), n'.View(option, side);
    PutView(x.neg, option, side, p');
    assert forall o, s :: n'.View(o, s) == if o == option && s == side then p' else x.neg.View(o, s);
    TellingSays(x, y, x', option, side, enable);
    forall o, s
      ensures Eventually(x', y, o, s) ==
        if o == option && s == side then enable && (PeerAllows(y, option, side) || AskedToo(x, y, option, side))
        else Eventually(x, y, o, s)
    {
      var toX, toY := Said(Coming(x, y).tokens, o, s), Said(Coming(y, x).tokens, o, Other(s));
      if o == option && s == side {
        assert CoherentAt(x, y, o, s);
        AskingDecidesTheEnd(p, y.neg.View(o, Other(s)), toX, toY, x.neg.policy.Accepts(s, o),
                            y.neg.policy.Accepts(Other(s), o), p');
      } else {
        assert Said(Coming(y, x').tokens, o, Other(s)) == toY + [] == toY;
      }
    }
  }

  /** A request that is not taken up changes nothing. */
  lemma AskingInVain(x: End, y: End, option: byte, side: Side, enable: bool)
    requires !AskPeer(x.neg, option, side, enable).1.Pending?
    ensures SameEnd(x, y, x.(neg := AskPeer(x.neg, option, side, enable).0), y)
  {
    TouchView(x.neg, option);
  }

  /** `act` asks for nothing about this option. */
  predicate LeavesAlone(act: Act, option: byte) { act.Negotiation? ==> act.option != option }

  /** What holds of one option in the end, at the first of two ends. */
  ghost predicate SameEndOf(s: Session, t: Session, option: byte) {
    && t.a.neg.policy == s.a.neg.policy && t.b.neg.policy == s.b.neg.policy
    && forall side :: Eventually(t.a, t.b, option, side) == Eventually(s.a, s.b, option, side)
  }

  lemma StepKeepsEnd(s: Session, act: Act, option: byte)
    requires Sound(s.a, s.b) && Allowed(s, act) && LeavesAlone(act, option)
    ensures Sound(Step(s, act).0.a, Step(s, act).0.b) && SameEndOf(s, Step(s, act).0, option)
  {
    hide Eventually, Receive, AskPeer;
    var t := if act.atA then s else Swap(s);
    var t' := StepA(t, act).0;
    StepKeepsSound(s, act);
    if !act.atA {
      SoundSymmetric(s.a, s.b);
      SoundSymmetric(Step(s, act).0.a, Step(s, act).0.b);
      EndIsSymmetric(s.a, s.b);
      EndIsSymmetric(Step(s, act).0.a, Step(s, act).0.b);
    }
    match act {
      case Negotiation(_, o, side, enable) =>
        RequestIsTakenUpIff(t.a.neg, o, side, enable);
        if AskPeer(t.a.neg, o, side, enable).1.Pending? {
          AskingDecides(t.a, t.b, o, side, enable);
        } else {
          AskingInVain(t.a, t.b, o, side, enable);
        }
      case Output(_, item) => SendingKeepsSound(t.a, t.b, item);
      case Delivery(_, n) => DeliverChunk(t.a, t.b, [], n);
    }
    forall side
      ensures Eventually(Step(s, act).0.a, Step(s, act).0.b, option, side) == Eventually(s.a, s.b, option, side)
    {
      assert Eventually(t'.a, t'.b, option, side) == Eventually(t.a, t.b, option, side);
      assert Eventually(t'.a, t'.b, option, Other(side)) == Eventually(t.a, t.b, option, Other(side));
    }
  }

  lemma {:induction false} RunKeepsEnd(s: Session, acts: seq<Act>, option: byte)
    requires Sound(s.a, s.b) && AllAllowed(s, acts) && forall i :: 0 <= i < |acts| ==> LeavesAlone(acts[i], option)
    ensures Sound(Final(s, acts).a, Final(s, acts).b) && SameEndOf(s, Final(s, acts), option)
    decreases |acts|
  {
    hide Eventually, Step, Sound, Allowed;
    if acts != [] {
      StepKeepsEnd(s, acts[0], option);
      RunKeepsEnd(Step(s, acts[0]).0, acts[1..], option);
    }
  }

  lemma QuietIsTheEnd(x: End, y: End, option: byte, side: Side)
    requires Sound(x, y) && x.neg.outbox == [] && y.neg.outbox == []
    ensures Eventually(x, y, option, side) == x.neg.View(option, side).enabled
    ensures Eventually(x, y, option, side) == y.neg.View(option, Other(side)).enabled
  {
    assert CoherentAt(x, y, option, side);
  }

  /** After a request that is taken up, by either end, at any point of a run, and with no other about
      this option following it, both ends agree once nothing is in flight: a request to disable is
      obeyed, and one to enable exactly if the other end allows that or had asked for the same. */
  lemma RequestDecides(s: Session, atA: bool, option: byte, side: Side, enable: bool, rest: seq<Act>)
    requires Sound(s.a, s.b) && AllAllowed(s, [Negotiation(atA, option, side, enable)] + rest)
    requires var x := if atA then s.a else s.b; AskPeer(x.neg, option, side, enable).1.Pending?
    requires forall i :: 0 <= i < |rest| ==> LeavesAlone(rest[i], option)
    ensures var (x, y) := if atA then (s.a, s.b) else (s.b, s.a);
            var t := Final(s, [Negotiation(atA, option, side, enable)] + rest);
            var (x', y') := if atA then (t.a, t.b) else (t.b, t.a);
            var agreed := enable && (PeerAllows(y, option, side) || AskedToo(x, y, option, side));
            Quiet(t) ==> x'.neg.View(option, side).enabled == agreed
                         && y'.neg.View(option, Other(side)).enabled == agreed
  {
    hide Eventually, AskPeer, PeerAllows, AskedToo;
    var ask := Negotiation(atA, option, side, enable);
    var s1, t := Step(s, ask).0, Final(s, [ask] + rest);
    assert ([ask] + rest)[1..] == rest;
    StepKeepsSound(s, ask);
    RunKeepsEnd(s1, rest, option);
    assert Other(Other(side)) == side;
    if atA {
      AskingDecides(s.a, s.b, option, side, enable);
      if Quiet(t) {
        QuietIsTheEnd(t.a, t.b, option, side);
      }
    } else {
      SoundSymmetric(s.a, s.b);
      AskingDecides(s.b, s.a, option, side, enable);
      EndIsSymmetric(s1.a, s1.b);
      if Quiet(t) {
        QuietIsTheEnd(t.a, t.b, option, Other(side));
        assert Eventually(s1.a, s1.b, option, Other(side)) == Eventually(s1.b, s1.a, option, Other(Other(side)));
      }
    }
  }
}
