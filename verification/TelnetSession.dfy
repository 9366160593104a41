/** Two ends running this code, joined by a FIFO of bytes in each direction (each end's `outbox`
    holds the bytes in flight to the other), under any interleaving of requests, data,
    subnegotiations and deliveries of chunks of any size. */
module TelnetSession {
  import opened Prelude
  import opened TelnetWire
  import opened TelnetOptions
  import opened TelnetEnd

  function Other(side: Side): Side { if side.Us? then Him else Us }

  /** What `tokens` will tell their receiver about one option and side, in order. */
  function Said(tokens: seq<Event>, option: byte, side: Side): seq<bool> {
    if tokens == [] then []
    else if Tells(tokens[0], option, side) then [HeardEnable(tokens[0].code)] + Said(tokens[1..], option, side)
    else Said(tokens[1..], option, side)
  }

  predicate Tells(ev: Event, option: byte, side: Side) {
    && ev.CommandReceived?
    && IsNegotiationCommand(ev.code)
    && ev.argument == Some(option)
    && HeardSide(ev.code) == side
  }

  lemma {:induction false} SaidAppend(x: seq<Event>, y: seq<Event>, option: byte, side: Side)
    ensures Said(x + y, option, side) == Said(x, option, side) + Said(y, option, side)
  {
    if x == [] {
      assert x + y == y;
    } else {
      assert (x + y)[1..] == x[1..] + y;
      SaidAppend(x[1..], y, option, side);
    }
  }

  lemma {:induction false} NothingHeard(tokens: seq<Event>, option: byte, side: Side)
    requires forall i :: 0 <= i < |tokens| ==> !IsHeard(tokens[i])
    ensures Said(tokens, option, side) == []
  {
    if tokens != [] {
      NothingHeard(tokens[1..], option, side);
    }
  }

  // ---------------------------------------------------------------- one option, one direction

  /** How the two ends' views of one side of one option fit with what is in flight between them. */
  predicate Coherent(p: Perspective, q: Perspective, toP: seq<bool>, toQ: seq<bool>) {
    if !p.negotiating && !q.negotiating then p.enabled == q.enabled && toP == [] && toQ == []
    else if p.negotiating && !q.negotiating then OneAsks(p, q, toP, toQ)
    else if !p.negotiating then OneAsks(q, p, toQ, toP)
    else
      || (p.enabled == q.enabled && toP == [!q.enabled] && toQ == [!p.enabled])
      || AnsweredThenAsked(p, q, toP, toQ)
      || AnsweredThenAsked(q, p, toQ, toP)
  }

  /** Only `p` is negotiating: its request is under way, or the answer is. */
  predicate OneAsks(p: Perspective, q: Perspective, toP: seq<bool>, toQ: seq<bool>) {
    || (toP == [] && toQ == [!p.enabled] && q.enabled == p.enabled)
    || (toP == [q.enabled] && toQ == [] && (p.enabled ==> !q.enabled))
  }

  /** `q` answered the request of `p` and then made its own; both are on their way to `p`. */
  predicate AnsweredThenAsked(p: Perspective, q: Perspective, toP: seq<bool>, toQ: seq<bool>) {
    toP == [q.enabled, !q.enabled] && toQ == [] && (p.enabled ==> !q.enabled)
  }

  /** Every command that arrives is heeded: none falls on an "ignore this" or a "never entered"
      handler, a reply is sent only to a peer that waits for one, and the views stay coherent. */
  lemma HearingKeepsCoherent(p: Perspective, q: Perspective, toP: seq<bool>, toQ: seq<bool>, accept: bool)
    requires Coherent(p, q, toP, toQ) && toP != [] && p.negotiating == p.onResult.Some?
    ensures var h := Hear(p, toP[0], accept);
            (h.Replied? && !p.negotiating && q.negotiating && toQ == []
             && Coherent(h.next, q, toP[1..], toQ + [h.reply]))
            || (h.Settled? && p.negotiating && !h.next.negotiating && Coherent(h.next, q, toP[1..], toQ))
  {
  }

  lemma AskingKeepsCoherent(p: Perspective, q: Perspective, toP: seq<bool>, toQ: seq<bool>, p': Perspective)
    requires Coherent(p, q, toP, toQ) && !p.negotiating && p'.negotiating && p'.enabled == p.enabled
    ensures Coherent(p', q, toP, toQ + [!p.enabled])
  {
  }

  /** What both will have in the end: if nobody is negotiating, what they have; if a request is under
      way, what its receiver makes of it; if it was answered, the answer. If both asked for the same
      at once, that; if one asked after it had answered, what the other will make of that. */
  function InTheEnd(p: Perspective, q: Perspective, toP: seq<bool>, toQ: seq<bool>, pAccepts: bool,
        qAccepts: bool): bool
  {
    if !p.negotiating && !q.negotiating then p.enabled
    else if !q.negotiating then (if toP != [] then q.enabled else !p.enabled && qAccepts)
    else if !p.negotiating then (if toQ != [] then p.enabled else !q.enabled && pAccepts)
    else if |toP| == 2 then !q.enabled && pAccepts
    else if |toQ| == 2 then !p.enabled && qAccepts
    else !p.enabled
  }

  /** Hearing what was said does not change that. */
  lemma HearingKeepsTheEnd(p: Perspective, q: Perspective, toP: seq<bool>, toQ: seq<bool>, pAccepts: bool,
        qAccepts: bool)
    requires Coherent(p, q, toP, toQ) && toP != [] && p.negotiating == p.onResult.Some?
    ensures var h := Hear(p, toP[0], pAccepts);
            (h.Replied? || h.Settled?)
            && InTheEnd(h.next, q, toP[1..], toQ + (if h.Replied? then [h.reply] else []), pAccepts, qAccepts)
               == InTheEnd(p, q, toP, toQ, pAccepts, qAccepts)
  {
  }

  /** Asking decides it: the peer will disable the option, and enable it if it lets it be enabled, or
      if it has just asked for the same. */
  lemma AskingDecidesTheEnd(p: Perspective, q: Perspective, toP: seq<bool>, toQ: seq<bool>, pAccepts: bool,
        qAccepts: bool, p': Perspective)
    requires Coherent(p, q, toP, toQ) && !p.negotiating && p'.negotiating && p'.enabled == p.enabled
    ensures InTheEnd(p', q, toP, toQ + [!p.enabled], pAccepts, qAccepts)
         == (!p.enabled && (qAccepts || (q.negotiating && toP != [])))
  {
  }

  // ---------------------------------------------------------------- the two ends

  /** What is in flight from `y` to `x`, as `x` will parse it. */
  function Coming(x: End, y: End): Parsed { Parse(x.parser, y.neg.outbox) }

  ghost predicate CoherentAt(x: End, y: End, option: byte, side: Side) {
    Coherent(x.neg.View(option, side), y.neg.View(option, Other(side)),
             Said(Coming(x, y).tokens, option, side), Said(Coming(y, x).tokens, option, Other(side)))
  }

  /** What the two ends will have in the end, if nobody asks for anything more. */
  function Eventually(x: End, y: End, option: byte, side: Side): bool {
    InTheEnd(x.neg.View(option, side), y.neg.View(option, Other(side)),
             Said(Coming(x, y).tokens, option, side), Said(Coming(y, x).tokens, option, Other(side)),
             x.neg.policy.Accepts(side, option), y.neg.policy.Accepts(Other(side), option))
  }

  ghost predicate SameEnd(x: End, y: End, x1: End, y1: End) {
    && x1.neg.policy == x.neg.policy && y1.neg.policy == y.neg.policy
    && forall option, side :: Eventually(x1, y1, option, side) == Eventually(x, y, option, side)
  }

  /** An end that asks its peer to enable an option lets the peer enable it. */
  ghost predicate Willing(n: Negotiator) {
    forall o :: n.View(o, Him).negotiating && !n.View(o, Him).enabled ==> o in n.policy.remote
  }

  ghost predicate Sound(x: End, y: End) {
    && Coming(x, y).fault.NoFault? && Between(Coming(x, y).state)
    && Coming(y, x).fault.NoFault? && Between(Coming(y, x).state)
    && Accounted(x.neg) && Accounted(y.neg) && Willing(x.neg) && Willing(y.neg)
    && forall option, side :: CoherentAt(x, y, option, side)
  }

  lemma SoundSymmetric(x: End, y: End)
    requires Sound(x, y)
    ensures Sound(y, x)
  {
    forall option, side
      ensures CoherentAt(y, x, option, side)
    {
      assert CoherentAt(x, y, option, Other(side));
    }
  }

  /** `y` after handing `n` bytes to the network. */
  function Taken(y: End, n: nat): End
    requires n <= |y.neg.outbox|
  {
    y.(neg := y.neg.(outbox := y.neg.outbox[n..]))
  }

  lemma OutboxOnly(n: Negotiator, bytes: seq<byte>)
    requires Accounted(n) && Willing(n)
    ensures Accounted(n.(outbox := bytes)) && Willing(n.(outbox := bytes))
    ensures forall o, s :: n.(outbox := bytes).View(o, s) == n.View(o, s)
  {
    var n' := n.(outbox := bytes);
    assert forall o, s :: n'.View(o, s) == n.View(o, s);
    SameViewsSameAccounts(n, n');
  }

  /** What a printed item adds to what is in flight, from a point between items. */
  lemma ComingAfter(p: ParseState, sent: seq<byte>, item: Item)
    requires Parse(p, sent).fault.NoFault? && Between(Parse(p, sent).state) && Printable([item])
    ensures var r := Parse(p, sent + PrintItem(item));
            r.fault.NoFault? && Between(r.state)
            && forall o, s :: Said(r.tokens, o, s) == Said(Parse(p, sent).tokens, o, s) + Said(Meant(item), o, s)
  {
    var before := Parse(p, sent);
    ParseAppend(p, sent, PrintItem(item));
    ItemSays(before.state, item);
    var added := Parse(before.state, PrintItem(item));
    forall o, s
      ensures Said(before.tokens + added.tokens, o, s) == Said(before.tokens, o, s) + Said(Meant(item), o, s)
    {
      SaidAppend(before.tokens, added.tokens, o, s);
    }
  }

  lemma ItemSays(p: ParseState, item: Item)
    requires Between(p) && Printable([item])
    ensures var r := Parse(p, PrintItem(item));
            r.fault.NoFault? && Between(r.state) && forall o, s :: Said(r.tokens, o, s) == Said(Meant(item), o, s)
  {
    var r := Parse(p, PrintItem(item));
    if item.WriteData? {
      DataIsOnlyData(p, item.data);
      forall o, s
        ensures Said(r.tokens, o, s) == Said(Meant(item), o, s)
      {
        NothingHeard(r.tokens, o, s);
        NothingHeard(Meant(item), o, s);
      }
    } else {
      ItemRoundTrip(p, item);
      forall o, s
        ensures Said(r.tokens, o, s) == Said(Meant(item), o, s)
      {
        SaidAppend(Owed(p), Meant(item), o, s);
        NothingHeard(Owed(p), o, s);
      }
    }
  }

  lemma {:induction false} DataIsOnlyData(p: ParseState, data: seq<byte>)
    requires Between(p)
    ensures var r := Parse(p, PrintData(data));
            r.fault.NoFault? && Between(r.state) && forall i :: 0 <= i < |r.tokens| ==> r.tokens[i].AppData?
    decreases |data|
  {
    if data == [] {
      assert PrintData(data) == [];
    } else {
      var b, rest := data[0], data[1..];
      assert data == [b] + rest;
      PrintDataStep(b, rest);
      PrintDataStep(b, []);
      assert [b] + [] == [b];
      assert PrintData(data) == PrintData([b]) + PrintData(rest);
      ByteRoundTrip(p, b);
      ParseAppend(p, PrintData([b]), PrintData(rest));
      DataIsOnlyData(Parse(p, PrintData([b])).state, rest);
    }
  }

  /** Application data and subnegotiations leave the negotiation alone. */
  lemma SendingKeepsSound(x: End, y: End, item: Item)
    requires Sound(x, y) && !item.Ask? && Printable([item])
    ensures Sound(x.(neg := x.neg.(outbox := x.neg.outbox + PrintItem(item))), y)
    ensures SameEnd(x, y, x.(neg := x.neg.(outbox := x.neg.outbox + PrintItem(item))), y)
  {
    var x' := x.(neg := x.neg.(outbox := x.neg.outbox + PrintItem(item)));
    OutboxOnly(x.neg, x'.neg.outbox);
    ComingAfter(y.parser, x.neg.outbox, item);
    forall option, side
      ensures CoherentAt(x', y, option, side) && Eventually(x', y, option, side) == Eventually(x, y, option, side)
    {
      assert CoherentAt(x, y, option, side);
      NothingHeard(Meant(item), option, Other(side));
    }
  }

  /** A command told by `x` is one more thing said to `y`. */
  lemma TellingSays(x: End, y: End, x': End, option: byte, side: Side, enable: bool)
    requires Coming(y, x).fault.NoFault? && Between(Coming(y, x).state)
    requires x'.neg.outbox == x.neg.outbox + PrintCommand(CodeFor(side, enable), option)
    ensures Coming(y, x').fault.NoFault? && Between(Coming(y, x').state)
    ensures forall o, s :: Said(Coming(y, x').tokens, o, Other(s))
                           == Said(Coming(y, x).tokens, o, Other(s)) + if o == option && s == side then [enable] else []
  {
    var item := Ask(CodeFor(side, enable), option);
    assert [item][0] == item;
    ComingAfter(y.parser, x.neg.outbox, item);
    HeardIsTold(side, enable);
    forall o, s
      ensures Said(Meant(item), o, Other(s)) == if o == option && s == side then [enable] else []
    {
      assert Meant(item)[1..] == [];
    }
  }

  lemma AskingKeepsSound(x: End, y: End, option: byte, side: Side, enable: bool)
    requires Sound(x, y)
    requires side.Him? && enable ==> option in x.neg.policy.remote
    ensures Sound(x.(neg := AskPeer(x.neg, option, side, enable).0), y)
  {
    var (n', answer) := AskPeer(x.neg, option, side, enable);
    var x' := x.(neg := n');
    AskKeepsAccounts(x.neg, option, side, enable);
    TouchView(x.neg, option);
    if answer.Pending? {
      var p' := n'.View(option, side);
      PutView(x.neg, option, side, p');
      assert forall o, s :: n'.View(o, s) == if o == option && s == side then p' else x.neg.View(o, s);
      TellingSays(x, y, x', option, side, enable);
    }
    forall o, s
      ensures CoherentAt(x', y, o, s)
    {
      assert CoherentAt(x, y, o, s);
      if answer.Pending? {
        if o == option && s == side {
          AskingKeepsCoherent(x.neg.View(o, s), y.neg.View(o, Other(s)), Said(Coming(x, y).tokens, o, s),
                              Said(Coming(y, x).tokens, o, Other(s)), n'.View(o, s));
        } else {
          assert Said(Coming(y, x').tokens, o, Other(s)) == Said(Coming(y, x).tokens, o, Other(s)) + [];
        }
      }
    }
  }

  // ---------------------------------------------------------------- how much is still to deliver

  /** Commands that will reach this end while it is not waiting for one: each draws a reply. */
  function Due(n: Negotiator, tokens: seq<Event>, option: byte, side: Side): nat {
    var k := |Said(tokens, option, side)|;
    if n.View(option, side).negotiating && k > 0 then k - 1 else k
  }

  function DueBelow(n: Negotiator, tokens: seq<Event>, k: nat): nat
    requires k <= 256
  {
    if k == 0 then 0
    else Due(n, tokens, (k - 1) as byte, Us) + Due(n, tokens, (k - 1) as byte, Him) + DueBelow(n, tokens, k - 1)
  }

  function Replies(n: Negotiator, tokens: seq<Event>): nat { DueBelow(n, tokens, 256) }

  /** The bytes that still have to be delivered before both directions are empty, if nobody sends
      anything new: those in flight, and three for every reply they will draw. */
  function Remaining(x: End, y: End): nat {
    |x.neg.outbox| + |y.neg.outbox|
    + 3 * (Replies(x.neg, Coming(x, y).tokens) + Replies(y.neg, Coming(y, x).tokens))
  }

  lemma {:induction false} SameDue(n: Negotiator, t: seq<Event>, n': Negotiator, t': seq<Event>, k: nat)
    requires k <= 256 && forall o, s :: Due(n', t', o, s) == Due(n, t, o, s)
    ensures DueBelow(n', t', k) == DueBelow(n, t, k)
  {
    if k > 0 {
      SameDue(n, t, n', t', k - 1);
    }
  }

  lemma {:induction false} OneLessDue(n: Negotiator, t: seq<Event>, n': Negotiator, t': seq<Event>,
        option: byte, side: Side, k: nat)
    requires k <= 256
    requires forall o, s :: Due(n, t, o, s) == Due(n', t', o, s) + if o == option && s == side then 1 else 0
    ensures DueBelow(n, t, k) == DueBelow(n', t', k) + if option as int < k then 1 else 0
  {
    if k > 0 {
      OneLessDue(n, t, n', t', option, side, k - 1);
      var o := (k - 1) as byte;
      assert Due(n, t, o, Us) == Due(n', t', o, Us) + if o == option && Us == side then 1 else 0;
      assert Due(n, t, o, Him) == Due(n', t', o, Him) + if o == option && Him == side then 1 else 0;
    }
  }

  // ---------------------------------------------------------------- delivering one byte

  ghost predicate ByteDelivered(x: End, y: End, buf: seq<byte>)
    requires y.neg.outbox != []
  {
    var (x1, _, f) := ReceiveByte(x, buf, y.neg.outbox[0]);
    && f.NoFault? && Sound(x1, Taken(y, 1)) && Remaining(x1, Taken(y, 1)) == Remaining(x, y) - 1
    && SameEnd(x, y, x1, Taken(y, 1))
  }

  lemma DeliverByte(x: End, y: End, buf: seq<byte>)
    requires Sound(x, y) && y.neg.outbox != []
    ensures ByteDelivered(x, y, buf)
  {
    var b, rest := y.neg.outbox[0], y.neg.outbox[1..];
    var a := React(x.parser, b);
    assert y.neg.outbox == [b] + rest;
    ParseStep(x.parser, b, rest);
    OutboxOnly(y.neg, rest);
    var (x1, _, f) := ReceiveByte(x, buf, b);
    assert Coming(x1, Taken(y, 1)) == Parse(a.next, rest);
    if a.Emit? && IsHeard(a.event) {
      DeliverCommand(x, y, x1, a.event);
    } else {
      var skipped := if a.Buffer? then Singles(a.data) else if a.Emit? then [a.event] else [];
      DeliverOther(x, y, x1, skipped);
    }
  }

  /** A byte that completes no option command. */
  lemma DeliverOther(x: End, y: End, x1: End, skipped: seq<Event>)
    requires Sound(x, y) && y.neg.outbox != []
    requires x1.neg == x.neg
    requires Coming(x, y) == Prepend(skipped, Coming(x1, Taken(y, 1)))
             || (skipped == [] && Coming(x, y) == Coming(x1, Taken(y, 1)))
    requires forall i :: 0 <= i < |skipped| ==> !IsHeard(skipped[i])
    ensures Sound(x1, Taken(y, 1)) && Remaining(x1, Taken(y, 1)) == Remaining(x, y) - 1
    ensures SameEnd(x, y, x1, Taken(y, 1))
  {
    var y1 := Taken(y, 1);
    OutboxOnly(y.neg, y1.neg.outbox);
    forall o, s
      ensures Said(Coming(x, y).tokens, o, s) == Said(Coming(x1, y1).tokens, o, s)
    {
      SaidAppend(skipped, Coming(x1, y1).tokens, o, s);
      NothingHeard(skipped, o, s);
    }
    assert Coming(y1, x1) == Coming(y, x);
    forall o, s
      ensures CoherentAt(x1, y1, o, s) && Eventually(x1, y1, o, s) == Eventually(x, y, o, s)
    {
      assert CoherentAt(x, y, o, s);
    }
    SameDue(x.neg, Coming(x, y).tokens, x1.neg, Coming(x1, y1).tokens, 256);
    SameDue(y.neg, Coming(y, x).tokens, y1.neg, Coming(y1, x1).tokens, 256);
  }

  /** `x` heard one command about one side of one option: what changed and what did not. */
  ghost predicate CommandStep(x: End, y: End, x1: End, y1: End, option: byte, side: Side, heard: bool, h: Heard) {
    && (h.Replied? || h.Settled?)
    && !h.next.negotiating && x.neg.View(option, side).negotiating == h.Settled?
    && |y1.neg.outbox| == |y.neg.outbox| - 1
    && |x1.neg.outbox| == |x.neg.outbox| + (if h.Replied? then 3 else 0)
    && (forall o, s :: x1.neg.View(o, s) == if o == option && s == side then h.next else x.neg.View(o, s))
    && (forall o, s :: y1.neg.View(o, s) == y.neg.View(o, s))
    && (h.Replied? ==> y.neg.View(option, Other(side)).negotiating)
    && (h.Replied? ==> Said(Coming(y, x).tokens, option, Other(side)) == [])
    && (forall o, s :: Said(Coming(x, y).tokens, o, s)
          == (if o == option && s == side then [heard] else []) + Said(Coming(x1, y1).tokens, o, s))
    && (forall o, s :: Said(Coming(y1, x1).tokens, o, Other(s))
          == Said(Coming(y, x).tokens, o, Other(s)) + if h.Replied? && o == option && s == side then [h.reply] else [])
  }

  /** The byte that completes an option command. */
  lemma DeliverCommand(x: End, y: End, x1: End, ev: Event)
    requires Sound(x, y) && y.neg.outbox != [] && IsHeard(ev)
    requires Coming(x, y) == Prepend([ev], Coming(x1, Taken(y, 1)))
    requires x1.neg == OnCommand(x.neg, ev.code, ev.argument.value).0
    ensures OnCommand(x.neg, ev.code, ev.argument.value).1
    ensures Sound(x1, Taken(y, 1)) && Remaining(x1, Taken(y, 1)) == Remaining(x, y) - 1
    ensures SameEnd(x, y, x1, Taken(y, 1))
  {
    var y1 := Taken(y, 1);
    var option, side := ev.argument.value, HeardSide(ev.code);
    OutboxOnly(y.neg, y1.neg.outbox);
    HearKeepsAccounts(x.neg, ev.code, option);
    var h := CommandIsStep(x, y, x1, ev);
    CommandKeepsSound(x, y, x1, y1, option, side, HeardEnable(ev.code), h);
    CommandKeepsCount(x, y, x1, y1, option, side, HeardEnable(ev.code), h);
    CommandKeepsEnd(x, y, x1, y1, option, side, HeardEnable(ev.code), h);
  }

  function SaidNow(ev: Event, o: byte, s: Side): seq<bool>
    requires IsHeard(ev)
  {
    if o == ev.argument.value && s == HeardSide(ev.code) then [HeardEnable(ev.code)] else []
  }

  /** What is said starts with the command that is heard. */
  lemma SaidFirst(ev: Event, rest: seq<Event>)
    requires IsHeard(ev)
    ensures forall o, s :: Said([ev] + rest, o, s) == SaidNow(ev, o, s) + Said(rest, o, s)
  {
    forall o, s
      ensures Said([ev] + rest, o, s) == SaidNow(ev, o, s) + Said(rest, o, s)
    {
      SaidAppend([ev], rest, o, s);
      assert [ev][1..] == [];
    }
  }

  lemma CommandIsStep(x: End, y: End, x1: End, ev: Event) returns (h: Heard)
    requires Sound(x, y) && y.neg.outbox != [] && IsHeard(ev)
    requires Coming(x, y) == Prepend([ev], Coming(x1, Taken(y, 1)))
    requires x1.neg == OnCommand(x.neg, ev.code, ev.argument.value).0
    ensures CommandStep(x, y, x1, Taken(y, 1), ev.argument.value, HeardSide(ev.code), HeardEnable(ev.code), h)
    ensures OnCommand(x.neg, ev.code, ev.argument.value).1 && x1.neg.policy == x.neg.policy
    ensures var option, side := ev.argument.value, HeardSide(ev.code);
            h == Hear(x.neg.View(option, side), HeardEnable(ev.code), x.neg.policy.Accepts(side, option))
    ensures Coming(y, x1).fault.NoFault? && Between(Coming(y, x1).state)
    ensures CoherentAt(x1, Taken(y, 1), ev.argument.value, HeardSide(ev.code))
  {
    hide Said, Coherent;
    var y1 := Taken(y, 1);
    var option, side := ev.argument.value, HeardSide(ev.code);
    var p, q := x.neg.View(option, side), y.neg.View(option, Other(side));
    var accept := x.neg.policy.Accepts(side, option);
    h := Hear(p, HeardEnable(ev.code), accept);
    OutboxOnly(y.neg, y1.neg.outbox);
    SaidFirst(ev, Coming(x1, y1).tokens);
    assert CoherentAt(x, y, option, side);
    HearingKeepsCoherent(p, q, Said(Coming(x, y).tokens, option, side),
                         Said(Coming(y, x).tokens, option, Other(side)), accept);
    PutView(x.neg, option, side, h.next);
    assert Said(Coming(x, y).tokens, option, side)[1..] == Said(Coming(x1, y1).tokens, option, side);
    if h.Replied? {
      TellingSays(x, y, x1, option, side, h.reply);
    }
    assert Coming(y1, x1) == Coming(y, x1);
  }

  lemma CommandKeepsSound(x: End, y: End, x1: End, y1: End, option: byte, side: Side, heard: bool, h: Heard)
    requires Sound(x, y) && CommandStep(x, y, x1, y1, option, side, heard, h)
    requires Accounted(x1.neg) && Accounted(y1.neg) && Willing(y1.neg) && x1.neg.policy == x.neg.policy
    requires Coming(x1, y1).fault.NoFault? && Between(Coming(x1, y1).state)
    requires Coming(y1, x1).fault.NoFault? && Between(Coming(y1, x1).state)
    requires CoherentAt(x1, y1, option, side)
    ensures Sound(x1, y1)
  {
    forall o, s | o != option || s != side
      ensures CoherentAt(x1, y1, o, s)
    {
      ElsewhereCoherent(x, y, x1, y1, option, side, heard, h, o, s);
    }
  }

  lemma ElsewhereCoherent(x: End, y: End, x1: End, y1: End, option: byte, side: Side, heard: bool, h: Heard,
        o: byte, s: Side)
    requires CommandStep(x, y, x1, y1, option, side, heard, h) && CoherentAt(x, y, o, s) && (o != option || s != side)
    ensures CoherentAt(x1, y1, o, s)
  {
    var toX, toX1 := Said(Coming(x, y).tokens, o, s), Said(Coming(x1, y1).tokens, o, s);
    var toY, toY1 := Said(Coming(y, x).tokens, o, Other(s)), Said(Coming(y1, x1).tokens, o, Other(s));
    assert toX == [] + toX1;
    assert toX == toX1;
    assert toY1 == toY + [];
    assert toY1 == toY;
  }

  lemma CommandKeepsEnd(x: End, y: End, x1: End, y1: End, option: byte, side: Side, heard: bool, h: Heard)
    requires Sound(x, y) && CommandStep(x, y, x1, y1, option, side, heard, h)
    requires h == Hear(x.neg.View(option, side), heard, x.neg.policy.Accepts(side, option))
    requires x1.neg.policy == x.neg.policy && y1.neg.policy == y.neg.policy
    ensures SameEnd(x, y, x1, y1)
  {
    hide Hear, InTheEnd;
    forall o, s
      ensures Eventually(x1, y1, o, s) == Eventually(x, y, o, s)
    {
      var toX, toX1 := Said(Coming(x, y).tokens, o, s), Said(Coming(x1, y1).tokens, o, s);
      var toY, toY1 := Said(Coming(y, x).tokens, o, Other(s)), Said(Coming(y1, x1).tokens, o, Other(s));
      if o == option && s == side {
        assert CoherentAt(x, y, o, s);
        assert toX[0] == heard && toX[1..] == toX1;
        HearingKeepsTheEnd(x.neg.View(o, s), y.neg.View(o, Other(s)), toX, toY,
                           x.neg.policy.Accepts(s, o), y.neg.policy.Accepts(Other(s), o));
      } else {
        assert toX == [] + toX1 && toX == toX1;
        assert toY1 == toY + [] && toY1 == toY;
      }
    }
  }

  lemma CommandKeepsCount(x: End, y: End, x1: End, y1: End, option: byte, side: Side, heard: bool, h: Heard)
    requires CommandStep(x, y, x1, y1, option, side, heard, h)
    ensures Remaining(x1, y1) == Remaining(x, y) - 1
  {
    var t, t1, u, u1 := Coming(x, y).tokens, Coming(x1, y1).tokens, Coming(y, x).tokens, Coming(y1, x1).tokens;
    forall o, s
      ensures Due(y1.neg, u1, o, s) == Due(y.neg, u, o, s)
    {
      assert Other(Other(s)) == s;
      assert |Said(u1, o, Other(Other(s)))|
          == |Said(u, o, Other(Other(s)))| + if h.Replied? && o == option && Other(s) == side then 1 else 0;
    }
    SameDue(y.neg, u, y1.neg, u1, 256);
    if h.Replied? {
      forall o, s
        ensures Due(x.neg, t, o, s) == Due(x1.neg, t1, o, s) + if o == option && s == side then 1 else 0
      {
        assert |Said(t, o, s)| == |Said(t1, o, s)| + if o == option && s == side then 1 else 0;
      }
      OneLessDue(x.neg, t, x1.neg, t1, option, side, 256);
    } else {
      forall o, s
        ensures Due(x1.neg, t1, o, s) == Due(x.neg, t, o, s)
      {
        assert |Said(t, o, s)| == |Said(t1, o, s)| + if o == option && s == side then 1 else 0;
      }
      SameDue(x.neg, t, x1.neg, t1, 256);
    }
  }

  // ---------------------------------------------------------------- whole runs

  /** A chunk of any size is received without a fault, and counts down exactly its length. */
  lemma {:induction false} DeliverChunk(x: End, y: End, buf: seq<byte>, n: nat)
    requires Sound(x, y) && n <= |y.neg.outbox|
    ensures var (x', f) := Receive(x, buf, y.neg.outbox[..n]);
            && f.NoFault? && Sound(x', Taken(y, n)) && Remaining(x', Taken(y, n)) == Remaining(x, y) - n
            && SameEnd(x, y, x', Taken(y, n))
    decreases n
  {
    hide Sound, Remaining, ReceiveByte, Eventually;
    var chunk := y.neg.outbox[..n];
    if n == 0 {
      assert Taken(y, 0) == y by {
        assert y.neg.outbox[0..] == y.neg.outbox;
      }
      LogIsIrrelevant(x, x.Flush(buf), y);
    } else {
      DeliverByte(x, y, buf);
      var (x1, buf1, _) := ReceiveByte(x, buf, chunk[0]);
      var y1 := Taken(y, 1);
      DeliverChunk(x1, y1, buf1, n - 1);
      assert chunk[1..] == y1.neg.outbox[..n - 1];
      assert Taken(y1, n - 1) == Taken(y, n);
    }
  }

  lemma LogIsIrrelevant(x: End, x': End, y: End)
    requires Sound(x, y) && x'.parser == x.parser && x'.neg == x.neg
    ensures Sound(x', y) && Remaining(x', y) == Remaining(x, y) && SameEnd(x, y, x', y)
  {
    forall o, s
      ensures CoherentAt(x', y, o, s) && Eventually(x', y, o, s) == Eventually(x, y, o, s)
    {
      assert CoherentAt(x, y, o, s);
    }
  }

  datatype Session = Session(a: End, b: End)

  function Start(policyA: Policy, policyB: Policy): Session {
    Session(End(Data, Negotiator(policyA, map[], [], 0, []), []), End(Data, Negotiator(policyB, map[], [], 0, []), []))
  }

  datatype Act =
    | Negotiation(atA: bool, option: byte, side: Side, enable: bool)   // do, dont, will, wont
    | Output(atA: bool, item: Item)                                    // write, requestNegotiation, IAC NOP ...
    | Delivery(atA: bool, n: nat)                                      // a chunk arrives

  function Swap(s: Session): Session { Session(s.b, s.a) }

  /** What the code asks of its callers, and the network's part. */
  predicate Allowed(s: Session, act: Act) {
    var (x, y) := if act.atA then (s.a, s.b) else (s.b, s.a);
    match act
    case Negotiation(_, option, side, enable) => side.Him? && enable ==> option in x.neg.policy.remote
    case Output(_, item) => !item.Ask? && Printable([item])
    case Delivery(_, n) => n <= |y.neg.outbox|
  }

  function StepA(s: Session, act: Act): (Session, Fault)
    requires act.Delivery? ==> act.n <= |s.b.neg.outbox|
  {
    match act
    case Negotiation(_, option, side, enable) =>
      (s.(a := s.a.(neg := AskPeer(s.a.neg, option, side, enable).0)), NoFault)
    case Output(_, item) =>
      (s.(a := s.a.(neg := s.a.neg.(outbox := s.a.neg.outbox + PrintItem(item)))), NoFault)
    case Delivery(_, n) =>
      var (a', f) := Receive(s.a, [], s.b.neg.outbox[..n]);
      (Session(a', Taken(s.b, n)), f)
  }

  function Step(s: Session, act: Act): (Session, Fault)
    requires Allowed(s, act)
  {
    if act.atA then StepA(s, act) else var (s', f) := StepA(Swap(s), act); (Swap(s'), f)
  }

  predicate AllAllowed(s: Session, acts: seq<Act>)
    decreases |acts|
  {
    acts == [] || (Allowed(s, acts[0]) && AllAllowed(Step(s, acts[0]).0, acts[1..]))
  }

  function Final(s: Session, acts: seq<Act>): Session
    requires AllAllowed(s, acts)
    decreases |acts|
  {
    if acts == [] then s else Final(Step(s, acts[0]).0, acts[1..])
  }

  /** No call of `dataReceived` in the run raised. */
  predicate NeverRaises(s: Session, acts: seq<Act>)
    requires AllAllowed(s, acts)
    decreases |acts|
  {
    acts == [] || (Step(s, acts[0]).1.NoFault? && NeverRaises(Step(s, acts[0]).0, acts[1..]))
  }

  function BytesDelivered(acts: seq<Act>): nat {
    if acts == [] then 0 else (if acts[0].Delivery? then acts[0].n else 0) + BytesDelivered(acts[1..])
  }

  lemma StepKeepsSound(s: Session, act: Act)
    requires Sound(s.a, s.b) && Allowed(s, act)
    ensures var (s', f) := Step(s, act);
            f.NoFault? && Sound(s'.a, s'.b)
            && (act.Delivery? ==> Remaining(s'.a, s'.b) == Remaining(s.a, s.b) - act.n)
  {
    var t := if act.atA then s else Swap(s);
    if !act.atA {
      SoundSymmetric(s.a, s.b);
    }
    match act {
      case Negotiation(_, option, side, enable) => AskingKeepsSound(t.a, t.b, option, side, enable);
      case Output(_, item) => SendingKeepsSound(t.a, t.b, item);
      case Delivery(_, n) => DeliverChunk(t.a, t.b, [], n);
    }
    if !act.atA {
      var t' := StepA(t, act).0;
      SoundSymmetric(t'.a, t'.b);
    }
  }

  lemma StartIsSound(policyA: Policy, policyB: Policy)
    ensures var s := Start(policyA, policyB); Sound(s.a, s.b)
  {
  }

  /** Every run: no handler that "can never be entered" is entered and no assertion fails
      anywhere, and the two ends stay coherent on every option. */
  lemma {:induction false} RunStaysSound(s: Session, acts: seq<Act>)
    requires Sound(s.a, s.b) && AllAllowed(s, acts)
    ensures NeverRaises(s, acts) && Sound(Final(s, acts).a, Final(s, acts).b)
    decreases |acts|
  {
    if acts != [] {
      StepKeepsSound(s, acts[0]);
      RunStaysSound(Step(s, acts[0]).0, acts[1..]);
    }
  }

  /** Nothing is in flight. */
  predicate Quiet(s: Session) { s.a.neg.outbox == [] && s.b.neg.outbox == [] }

  /** One end's idea of the other is the other's idea of itself, nobody is negotiating, and every
      request's Deferred has fired, exactly once. */
  ghost predicate Settled(s: Session) {
    && (forall o :: s.a.neg.View(o, Him).enabled == s.b.neg.View(o, Us).enabled)
    && (forall o :: s.b.neg.View(o, Him).enabled == s.a.neg.View(o, Us).enabled)
    && (forall o, side :: !s.a.neg.View(o, side).negotiating && !s.b.neg.View(o, side).negotiating)
    && AllFiredOnce(s.a.neg) && AllFiredOnce(s.b.neg)
  }

  ghost predicate AllFiredOnce(n: Negotiator) {
    && (forall id: nat :: id < n.issued <==> HasFired(n, id))
    && (forall i, j :: 0 <= i < j < |n.fired| ==> n.fired[i].request != n.fired[j].request)
  }

  lemma QuietIsSettled(s: Session)
    requires Sound(s.a, s.b) && Quiet(s)
    ensures Settled(s) && Remaining(s.a, s.b) == 0
  {
    var x, y := s.a, s.b;
    forall o, side
      ensures !x.neg.View(o, side).negotiating && !y.neg.View(o, side).negotiating
      ensures x.neg.View(o, side).enabled == y.neg.View(o, Other(side)).enabled
    {
      assert CoherentAt(x, y, o, side);
      assert CoherentAt(x, y, o, Other(side));
    }
    assert forall o :: y.neg.View(o, Him).enabled == x.neg.View(o, Us).enabled by {
      forall o
        ensures y.neg.View(o, Him).enabled == x.neg.View(o, Us).enabled
      {
        assert x.neg.View(o, Us).enabled == y.neg.View(o, Other(Us)).enabled;
      }
    }
    AllAreFired(x.neg);
    AllAreFired(y.neg);
    NothingDue(x.neg, Coming(x, y).tokens, 256);
    NothingDue(y.neg, Coming(y, x).tokens, 256);
  }

  lemma AllAreFired(n: Negotiator)
    requires Accounted(n) && forall o, side :: !n.View(o, side).negotiating
    ensures AllFiredOnce(n)
  {
    forall id: nat
      ensures id < n.issued <==> HasFired(n, id)
    {
      assert !Outstanding(n, id);
    }
  }

  lemma {:induction false} NothingDue(n: Negotiator, t: seq<Event>, k: nat)
    requires k <= 256 && t == []
    ensures DueBelow(n, t, k) == 0
  {
    if k > 0 {
      NothingDue(n, t, k - 1);
    }
  }

  /** If nobody asks for anything more, delivering what is in flight ends: exactly
      `Remaining` bytes have to be delivered, in whatever chunks and order, and then all is settled. */
  lemma {:induction false} DeliveringEnds(s: Session, acts: seq<Act>)
    requires Sound(s.a, s.b) && AllAllowed(s, acts) && forall i :: 0 <= i < |acts| ==> acts[i].Delivery?
    ensures var s' := Final(s, acts);
            Remaining(s'.a, s'.b) == Remaining(s.a, s.b) - BytesDelivered(acts)
            && (Quiet(s') <==> BytesDelivered(acts) == Remaining(s.a, s.b)) && (Quiet(s') ==> Settled(s'))
    decreases |acts|
  {
    if acts == [] {
      if Quiet(s) {
        QuietIsSettled(s);
      }
    } else {
      StepKeepsSound(s, acts[0]);
      DeliveringEnds(Step(s, acts[0]).0, acts[1..]);
    }
  }

  /** The whole story, for any policies and any run from a fresh connection. */
  lemma TelnetNegotiationConverges(policyA: Policy, policyB: Policy, acts: seq<Act>, deliveries: seq<Act>)
    requires var s := Start(policyA, policyB); AllAllowed(s, acts) && AllAllowed(Final(s, acts), deliveries)
    requires forall i :: 0 <= i < |deliveries| ==> deliveries[i].Delivery?
    ensures var s := Start(policyA, policyB);
            var t := Final(s, acts);
            NeverRaises(s, acts) && NeverRaises(t, deliveries)
            && BytesDelivered(deliveries) <= Remaining(t.a, t.b)
            && (BytesDelivered(deliveries) == Remaining(t.a, t.b) <==> Quiet(Final(t, deliveries)))
            && (Quiet(Final(t, deliveries)) ==> Settled(Final(t, deliveries)))
  {
    var s := Start(policyA, policyB);
    StartIsSound(policyA, policyB);
    RunStaysSound(s, acts);
    RunStaysSound(Final(s, acts), deliveries);
    DeliveringEnds(Final(s, acts), deliveries);
  }
}