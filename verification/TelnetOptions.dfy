/** Option negotiation at one end, as functions on values. One symmetric rule, `Hear`, covers the
    four dispatch tables of the code: what an end keeps about its peer (`him`) when it hears
    WILL or WONT, and what it keeps about itself (`us`) when it hears DO or DONT. */
module TelnetOptions {
  import opened Prelude
  import opened TelnetWire

  datatype Side = Us | Him

  datatype Perspective = Perspective(enabled: bool, negotiating: bool, onResult: Option<nat>)

  datatype OptionState = OptionState(us: Perspective, him: Perspective) {
    function View(side: Side): Perspective { if side.Us? then us else him }

    function With(side: Side, p: Perspective): OptionState {
      if side.Us? then this.(us := p) else this.(him := p)
    }
  }

  const FRESH := Perspective(false, false, None)

  /** The application's constant answers: which options it lets itself, and its peer, enable. */
  datatype Policy = Policy(local: set<byte>, remote: set<byte>) {
    predicate Accepts(side: Side, option: byte) { option in if side.Us? then local else remote }
  }

  /** A Deferred firing: with True, with OptionRefused, or with the reason of the disconnection. */
  datatype Outcome = Granted | Refused | Disconnected

  datatype Firing = Firing(request: nat, outcome: Outcome)

  /** What `do`, `dont`, `will` and `wont` hand back at once. */
  datatype Answer = AlreadyNegotiating | AlreadyEnabled | AlreadyDisabled | Pending(request: nat)

  datatype Negotiator = Negotiator(
    policy: Policy,
    options: map<byte, OptionState>,
    outbox: seq<byte>,
    issued: nat,
    fired: seq<Firing>)
  {
    function Get(option: byte): OptionState {
      if option in options then options[option] else OptionState(FRESH, FRESH)
    }

    function View(option: byte, side: Side): Perspective { Get(option).View(side) }

    function Put(option: byte, side: Side, p: Perspective): Negotiator {
      this.(options := options[option := Get(option).With(side, p)])
    }

    /** `getOptionState`: the entry exists from now on. */
    function Touch(option: byte): Negotiator { this.(options := options[option := Get(option)]) }

    /** Write the command that tells the peer `enable` about `side`. */
    function Tell(option: byte, side: Side, enable: bool): Negotiator {
      this.(outbox := outbox + PrintCommand(CodeFor(side, enable), option))
    }

    function Fire(request: nat, outcome: Outcome): Negotiator {
      this.(fired := fired + [Firing(request, outcome)])
    }
  }

  function CodeFor(side: Side, enable: bool): (code: byte)
    ensures IsNegotiationCommand(code)
  {
    if side.Him? then (if enable then DO else DONT) else (if enable then WILL else WONT)
  }

  /** The receiver of WILL or WONT learns about `him`, of DO or DONT about `us`. */
  function HeardSide(code: byte): Side { if code == WILL || code == WONT then Him else Us }

  function HeardEnable(code: byte): bool { code == WILL || code == DO }

  /** Hearing the sender's code for one side is hearing about the receiver's other side. */
  lemma HeardIsTold(side: Side, enable: bool)
    ensures HeardSide(CodeFor(side, enable)) != side && HeardEnable(CodeFor(side, enable)) == enable
  {
  }

  /** A request by the application: `do`/`dont` for Him, `will`/`wont` for Us. */
  function AskPeer(n: Negotiator, option: byte, side: Side, enable: bool): (Negotiator, Answer) {
    var s := n.Get(option);
    var p := s.View(side);
    if s.us.negotiating || s.him.negotiating then (n.Touch(option), AlreadyNegotiating)
    else if p.enabled == enable then (n.Touch(option), if enable then AlreadyEnabled else AlreadyDisabled)
    else
      var p' := p.(negotiating := true, onResult := Some(n.issued));
      (n.Put(option, side, p').Tell(option, side, enable).(issued := n.issued + 1), Pending(n.issued))
  }

  /** What hearing one command does to the perspective it is about. */
  datatype Heard =
    | Ignored
    | Replied(next: Perspective, reply: bool)
    | Settled(next: Perspective, request: nat, outcome: Outcome)
    | Bogus

  function Hear(p: Perspective, enable: bool, accept: bool): Heard {
    if !p.negotiating then
      if p.enabled == enable then Ignored
      else if enable && !accept then Replied(p, false)
      else Replied(p.(enabled := enable), enable)
    else if p.onResult.None? || (p.enabled && enable) then Bogus
    else
      var next := Perspective(enable, false, None);
      Settled(next, p.onResult.value, if p.enabled != enable then Granted else Refused)
  }

  /** One received command; the flag says whether the handler returned normally. */
  function OnCommand(n: Negotiator, code: byte, option: byte): (Negotiator, bool) {
    var side, enable := HeardSide(code), HeardEnable(code);
    var accept := n.policy.Accepts(side, option);
    match Hear(n.View(option, side), enable, accept)
    case Ignored => (n.Touch(option), true)
    case Replied(p, reply) => (n.Put(option, side, p).Tell(option, side, reply), true)
    case Settled(p, request, outcome) =>
      (n.Put(option, side, p).Fire(request, outcome), code != WILL || accept)
    case Bogus => (n.Touch(option), false)
  }

  // ---------------------------------------------------------------- what is heard and asked

  /** An offer or a request of the peer about a disabled option: it is enabled exactly if the
      application lets it be, and the answer says which. The octets are those of RFC 854. */
  lemma OfferIsTakenIfAllowed(n: Negotiator, option: byte, side: Side)
    requires !n.View(option, side).negotiating && !n.View(option, side).enabled
    ensures var allowed := option in if side.Him? then n.policy.remote else n.policy.local;
            var (n', ok) := OnCommand(n, if side.Him? then 251 else 253, option);
            var answer := if side.Him? then (if allowed then 253 else 254) else (if allowed then 251 else 252);
            && ok && n'.outbox == n.outbox + [255, answer, option]
            && n'.View(option, side) == n.View(option, side).(enabled := allowed) && n'.fired == n.fired
  {
    PutView(n, option, side, n.View(option, side));
  }

  /** A refusal is always heeded, and answered exactly if it disables an option unasked. */
  lemma RefusalIsHeeded(n: Negotiator, option: byte, side: Side)
    requires Accounted(n)
    ensures var p, (n', ok) := n.View(option, side), OnCommand(n, if side.Him? then 252 else 254, option);
            && ok && !n'.View(option, side).enabled && !n'.View(option, side).negotiating
            && n'.outbox == n.outbox +
                 if p.enabled && !p.negotiating then [255, if side.Him? then 254 else 252, option] else []
  {
    PutView(n, option, side, FRESH);
    TouchView(n, option);
  }

  /** A handler raises exactly if it hears again what was asked to end, or hears an answer to a
      request that the application does not stand by. */
  lemma HandlerRaisesIff(n: Negotiator, code: byte, option: byte)
    requires Accounted(n) && 251 <= code <= 254
    ensures var p := n.View(option, if code <= 252 then Him else Us);
            !OnCommand(n, code, option).1 <==>
              p.negotiating && (code == 251 || code == 253)
              && (p.enabled || (code == 251 && option !in n.policy.remote))
  {
  }

  /** Hearing a command changes nothing about any other option, or the other side. */
  lemma OthersUnchanged(n: Negotiator, code: byte, option: byte)
    ensures var n' := OnCommand(n, code, option).0;
            && n'.policy == n.policy && n'.issued == n.issued
            && forall o, s :: (o != option || s != HeardSide(code)) ==> n'.View(o, s) == n.View(o, s)
  {
    PutView(n, option, HeardSide(code), OnCommand(n, code, option).0.View(option, HeardSide(code)));
    TouchView(n, option);
  }

  /** A request is taken up exactly if no negotiation about the option is going on and it would change
      something; then the command goes out, and nothing else changes. */
  lemma RequestIsTakenUpIff(n: Negotiator, option: byte, side: Side, enable: bool)
    ensures var (n', answer) := AskPeer(n, option, side, enable);
            var negotiating := n.View(option, Us).negotiating || n.View(option, Him).negotiating;
            && answer == (if negotiating then AlreadyNegotiating
                          else if n.View(option, side).enabled != enable then Pending(n.issued)
                          else if enable then AlreadyEnabled else AlreadyDisabled)
            && n'.outbox == n.outbox +
                 (if !answer.Pending? then []
                  else if side.Him? then [255, if enable then 253 else 254, option]
                  else [255, if enable then 251 else 252, option])
            && n'.issued == n.issued + (if answer.Pending? then 1 else 0) && n'.fired == n.fired
            && n'.policy == n.policy
            && forall o, s :: n'.View(o, s) ==
                 if answer.Pending? && o == option && s == side
                 then n.View(o, s).(negotiating := true, onResult := Some(n.issued)) else n.View(o, s)
  {
    PutView(n, option, side, n.View(option, side).(negotiating := true, onResult := Some(n.issued)));
    TouchView(n, option);
  }

  // ---------------------------------------------------------------- bookkeeping of the Deferreds

  predicate HasFired(n: Negotiator, request: nat) {
    exists i :: 0 <= i < |n.fired| && n.fired[i].request == request
  }

  /** A Deferred is outstanding exactly where a negotiation is going on. */
  ghost predicate Accounted(n: Negotiator) {
    Ledger(n) && forall o, s :: n.View(o, s).negotiating == n.View(o, s).onResult.Some?
  }

  /** Every request was issued once, and is either fired, once, or outstanding at one place. */
  ghost predicate Ledger(n: Negotiator) {
    && (forall o, s :: n.View(o, s).onResult.Some? ==>
          n.View(o, s).onResult.value < n.issued && !HasFired(n, n.View(o, s).onResult.value))
    && (forall o, s, o', s' :: n.View(o, s).onResult.Some? && n.View(o', s').onResult == n.View(o, s).onResult ==>
          o == o' && s == s')
    && (forall i, j :: 0 <= i < j < |n.fired| ==> n.fired[i].request != n.fired[j].request)
    && (forall i :: 0 <= i < |n.fired| ==> n.fired[i].request < n.issued)
    && (forall id: nat :: id < n.issued ==> HasFired(n, id) || Outstanding(n, id))
  }

  ghost predicate Outstanding(n: Negotiator, id: nat) {
    exists o, s :: n.View(o, s).onResult == Some(id)
  }

  lemma PutView(n: Negotiator, option: byte, side: Side, p: Perspective)
    ensures forall o, s :: n.Put(option, side, p).View(o, s) == if o == option && s == side then p else n.View(o, s)
  {
  }

  lemma TouchView(n: Negotiator, option: byte)
    ensures forall o, s :: n.Touch(option).View(o, s) == n.View(o, s)
  {
  }

  lemma SameViewsSameAccounts(n: Negotiator, n': Negotiator)
    requires Accounted(n) && n'.fired == n.fired && n'.issued == n.issued
    requires forall o, s :: n'.View(o, s) == n.View(o, s)
    ensures Accounted(n')
  {
    assert forall id: nat :: HasFired(n', id) == HasFired(n, id);
    forall id: nat | id < n'.issued
      ensures HasFired(n', id) || Outstanding(n', id)
    {
      if !HasFired(n, id) {
        var o, s :| n.View(o, s).onResult == Some(id);
        assert n'.View(o, s).onResult == Some(id);
      }
    }
  }

  lemma AskKeepsAccounts(n: Negotiator, option: byte, side: Side, enable: bool)
    requires Accounted(n)
    ensures Accounted(AskPeer(n, option, side, enable).0)
  {
    var (n', a) := AskPeer(n, option, side, enable);
    TouchView(n, option);
    if !a.Pending? {
      SameViewsSameAccounts(n, n');
    } else {
      PutView(n, option, side, n'.View(option, side));
      assert forall o, s :: n'.View(o, s) == if o == option && s == side then n'.View(option, side) else n.View(o, s);
      forall id: nat | id < n'.issued
        ensures HasFired(n', id) || Outstanding(n', id)
      {
        if id == n.issued {
          assert n'.View(option, side).onResult == Some(id);
        } else if HasFired(n, id) {
          var i :| 0 <= i < |n.fired| && n.fired[i].request == id;
          assert n'.fired[i].request == id;
        } else {
          var o, s :| n.View(o, s).onResult == Some(id);
          assert n'.View(o, s).onResult == Some(id);
        }
      }
      forall o, s | n'.View(o, s).onResult.Some?
        ensures !HasFired(n', n'.View(o, s).onResult.value)
      {
        if o != option || s != side {
          assert !HasFired(n, n.View(o, s).onResult.value);
        }
      }
    }
  }

  /** One perspective changed, and if its Deferred is gone it has been fired: the ledger stays. */
  lemma UpdateKeepsLedger(n: Negotiator, n': Negotiator, option: byte, side: Side, next: Perspective,
        fires: seq<Firing>)
    requires Ledger(n) && n'.issued == n.issued && n'.fired == n.fired + fires
    requires forall o, s :: n'.View(o, s) == if o == option && s == side then next else n.View(o, s)
    requires var was := n.View(option, side).onResult;
             if next.onResult == was then fires == []
             else next.onResult.None? && was.Some? && |fires| == 1 && fires[0].request == was.value
    ensures Ledger(n')
  {
    var was := n.View(option, side).onResult;
    FiredAfter(n, n', fires);
    forall id: nat | id < n'.issued && !HasFired(n', id)
      ensures Outstanding(n', id)
    {
      var o, s :| n.View(o, s).onResult == Some(id);
      assert n'.View(o, s).onResult == Some(id);
    }
    forall i, j | 0 <= i < j < |n'.fired|
      ensures n'.fired[i].request != n'.fired[j].request
    {
      assert HasFired(n, n'.fired[i].request);
    }
  }

  lemma FiredAfter(n: Negotiator, n': Negotiator, fires: seq<Firing>)
    requires n'.fired == n.fired + fires && |fires| <= 1
    ensures forall id: nat :: HasFired(n', id) <==> HasFired(n, id) || (fires != [] && id == fires[0].request)
  {
    forall id: nat
      ensures HasFired(n', id) <==> HasFired(n, id) || (fires != [] && id == fires[0].request)
    {
      if HasFired(n, id) {
        var i :| 0 <= i < |n.fired| && n.fired[i].request == id;
        assert n'.fired[i].request == id;
      }
      if fires != [] && id == fires[0].request {
        assert n'.fired[|n.fired|].request == id;
      }
    }
  }

  lemma HearKeepsAccounts(n: Negotiator, code: byte, option: byte)
    requires Accounted(n)
    ensures Accounted(OnCommand(n, code, option).0)
  {
    var n' := OnCommand(n, code, option).0;
    var side := HeardSide(code);
    var h := Hear(n.View(option, side), HeardEnable(code), n.policy.Accepts(side, option));
    if h.Replied? || h.Settled? {
      PutView(n, option, side, h.next);
      assert forall o, s :: n'.View(o, s) == if o == option && s == side then h.next else n.View(o, s);
      UpdateKeepsLedger(n, n', option, side, h.next, if h.Settled? then [Firing(h.request, h.outcome)] else []);
    } else {
      TouchView(n, option);
      SameViewsSameAccounts(n, n');
    }
  }

  /** Firing what is outstanding at one place keeps the ledger. */
  lemma ReleaseKeepsLedger(n: Negotiator, option: byte, side: Side, outcome: Outcome)
    requires Ledger(n) && n.View(option, side).onResult.Some?
    ensures var p := n.View(option, side);
            Ledger(n.Put(option, side, p.(onResult := None)).Fire(p.onResult.value, outcome))
  {
    var p := n.View(option, side);
    var n' := n.Put(option, side, p.(onResult := None)).Fire(p.onResult.value, outcome);
    PutView(n, option, side, p.(onResult := None));
    assert forall o, s :: n'.View(o, s) == if o == option && s == side then p.(onResult := None) else n.View(o, s);
    UpdateKeepsLedger(n, n', option, side, p.(onResult := None), [Firing(p.onResult.value, outcome)]);
  }
}
