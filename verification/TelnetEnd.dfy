/** One telnet end: `dataReceived` with its buffer of application data, the handlers of the four
    option commands, and the requests. The class is the code; the functions say what it does. */
module TelnetEnd {
  import opened Prelude
  import opened TelnetWire
  import opened TelnetOptions

  datatype End = End(parser: ParseState, neg: Negotiator, log: seq<Event>) {
    /** `if appDataBuffer: applicationDataReceived(...)`. */
    function Flush(buf: seq<byte>): End {
      if buf == [] then this else this.(log := log + [AppData(buf)])
    }
  }

  predicate IsHeard(ev: Event) {
    ev.CommandReceived? && IsNegotiationCommand(ev.code) && ev.argument.Some?
  }

  /** `commandReceived` and `negotiate`: only the four option commands change this end. */
  function Dispatch(n: Negotiator, ev: Event): (Negotiator, bool) {
    if IsHeard(ev) then OnCommand(n, ev.code, ev.argument.value) else (n, true)
  }

  lemma OthersAreNotHeard(n: Negotiator)
    ensures forall ev: Event :: !IsHeard(ev) ==> Dispatch(n, ev) == (n, true)
  {
  }

  function Logged(e: End, buf: seq<byte>, q: ParseState, ev: Event): End {
    var after := e.(parser := q).Flush(buf);
    after.(neg := Dispatch(e.neg, ev).0, log := after.log + [ev])
  }

  /** The code's own way: application data waits in `buf` until an event or the end of the call,
      and is lost when the parser raises on an unknown command. */
  function ReceiveByte(e: End, buf: seq<byte>, b: byte): (End, seq<byte>, Fault) {
    var a := React(e.parser, b);
    var moved := e.(parser := a.next);
    match a
    case Shift(_) => (moved, buf, NoFault)
    case Buffer(_, bs) => (moved, buf + bs, NoFault)
    case Emit(q, ev) => (Logged(e, buf, q, ev), [], if Dispatch(e.neg, ev).1 then NoFault else HandlerFailed)
    case Raise(_, f) => (if f.EmptyNegotiation? then moved.Flush(buf) else moved, [], f)
  }

  function Receive(e: End, buf: seq<byte>, data: seq<byte>): (End, Fault)
    decreases |data|
  {
    if data == [] then (e.Flush(buf), NoFault)
    else
      var (e1, buf1, f) := ReceiveByte(e, buf, data[0]);
      if f.NoFault? then Receive(e1, buf1, data[1..]) else (e1, f)
  }

  /** A transport delivers chunks until one call raises. */
  function ReceiveAll(e: End, chunks: seq<seq<byte>>): (End, Fault)
    decreases |chunks|
  {
    if chunks == [] then (e, NoFault)
    else
      var (e1, f) := Receive(e, [], chunks[0]);
      if f.NoFault? then ReceiveAll(e1, chunks[1..]) else (e1, f)
  }

  // ---------------------------------------------------------------- the unbuffered reference

  /** Byte by byte with no buffer: final parser and negotiator, flat tokens, and the fault. */
  datatype Ran = Ran(parser: ParseState, neg: Negotiator, tokens: seq<Event>, fault: Fault)

  function After(tokens: seq<Event>, r: Ran): Ran { r.(tokens := tokens + r.tokens) }

  function Run(p: ParseState, n: Negotiator, data: seq<byte>): Ran
    decreases |data|, 0
  {
    if data == [] then Ran(p, n, [], NoFault) else Advance(n, React(p, data[0]), data[1..])
  }

  function Advance(n: Negotiator, a: Reaction, rest: seq<byte>): Ran
    decreases |rest|, 1
  {
    match a
    case Shift(q) => Run(q, n, rest)
    case Buffer(q, bs) => After(Singles(bs), Run(q, n, rest))
    case Emit(q, ev) =>
      var (n', ok) := Dispatch(n, ev);
      if ok then After([ev], Run(q, n', rest)) else Ran(q, n', [ev], HandlerFailed)
    case Raise(q, f) => Ran(q, n, [], f)
  }

  lemma {:induction false} RunAppend(p: ParseState, n: Negotiator, x: seq<byte>, y: seq<byte>)
    ensures var r := Run(p, n, x);
            Run(p, n, x + y) == if r.fault.NoFault? then After(r.tokens, Run(r.parser, r.neg, y)) else r
    decreases |x|
  {
    if x == [] {
      assert x + y == y;
      assert After([], Run(p, n, y)) == Run(p, n, y);
    } else {
      assert (x + y)[1..] == x[1..] + y;
      match React(p, x[0])
      case Shift(q) => RunAppend(q, n, x[1..], y);
      case Buffer(q, bs) =>
        RunAppend(q, n, x[1..], y);
        var r := Run(q, n, x[1..]);
        Assoc(Singles(bs), r.tokens, Run(r.parser, r.neg, y).tokens);
      case Emit(q, ev) =>
        var (n', ok) := Dispatch(n, ev);
        if ok {
          RunAppend(q, n', x[1..], y);
          var r := Run(q, n', x[1..]);
          Assoc([ev], r.tokens, Run(r.parser, r.neg, y).tokens);
        }
      case Raise(q, f) =>
    }
  }

  /** The application data at the end of a token list, which the code has not flushed yet. */
  function Unflushed(tokens: seq<Event>): (k: nat)
    ensures k <= |tokens|
  {
    if tokens == [] || !tokens[|tokens| - 1].AppData? then 0 else 1 + Unflushed(tokens[..|tokens| - 1])
  }

  function DropUnflushed(tokens: seq<Event>): seq<Event> { tokens[..|tokens| - Unflushed(tokens)] }

  /** What a call with these tokens and this fault really delivers. */
  function Delivered(tokens: seq<Event>, f: Fault): seq<Event> {
    if f.Stumped? then DropUnflushed(tokens) else tokens
  }

  lemma {:induction false} UnflushedOverEvent(x: seq<Event>, ev: Event, y: seq<Event>)
    requires !ev.AppData?
    ensures Unflushed(x + [ev] + y) == Unflushed(y)
    ensures DropUnflushed(x + [ev] + y) == x + [ev] + DropUnflushed(y)
    decreases |y|
  {
    var all := x + [ev] + y;
    if y == [] {
      assert all[|all| - 1] == ev;
    } else {
      assert all[|all| - 1] == y[|y| - 1];
      assert all[..|all| - 1] == x + [ev] + y[..|y| - 1];
      if y[|y| - 1].AppData? {
        UnflushedOverEvent(x, ev, y[..|y| - 1]);
      }
    }
  }

  lemma {:induction false} AllUnflushed(data: seq<byte>)
    ensures Unflushed(Singles(data)) == |data|
  {
    if data != [] {
      assert Singles(data)[..|data| - 1] == Singles(data[..|data| - 1]);
      AllUnflushed(data[..|data| - 1]);
    }
  }

  /** A log is the data already delivered plus what `buf` still holds. */
  lemma FlattenFlush(e: End, buf: seq<byte>)
    ensures Flatten(e.Flush(buf).log) == Flatten(e.log) + Singles(buf)
  {
    if buf == [] {
      assert Singles(buf) == [];
    } else {
      FlattenAppend(e.log, [AppData(buf)]);
      assert Flatten([AppData(buf)]) == Singles(buf) + Flatten([]) == Singles(buf);
    }
  }

  /** The buffered code does what the unbuffered reference does: same parser, same negotiation,
      same fault, and the same flat log except for the data an unknown command makes it drop. */
  lemma {:induction false} ReceiveIsRun(e: End, buf: seq<byte>, data: seq<byte>)
    ensures var (e', f) := Receive(e, buf, data);
            var r := Run(e.parser, e.neg, data);
            f == r.fault && e'.parser == r.parser && e'.neg == r.neg
            && Flatten(e'.log) == Flatten(e.log) + Delivered(Singles(buf) + r.tokens, f)
    decreases |data|
  {
    hide React, Dispatch, Flatten, Singles, Unflushed;
    if data == [] {
      FlattenFlush(e, buf);
      assert Singles(buf) + [] == Singles(buf);
    } else {
      var a, rest := React(e.parser, data[0]), data[1..];
      var moved := e.(parser := a.next);
      Reacts(e.parser, data[0]);
      match a
      case Shift(q) =>
        ReceiveIsRun(moved, buf, rest);
      case Buffer(q, bs) =>
        ReceiveIsRun(moved, buf + bs, rest);
        SinglesAppend(buf, bs);
        Assoc(Singles(buf), Singles(bs), Run(q, e.neg, rest).tokens);
      case Emit(q, ev) =>
        var r := Run(e.parser, e.neg, data);
        var l := Logged(e, buf, q, ev);
        LoggedFlattens(e, buf, q, ev);
        if Dispatch(e.neg, ev).1 {
          ReceiveIsRun(l, [], rest);
          DeliveredOverEvent(Flatten(e.log), Singles(buf), ev, Run(q, l.neg, rest).tokens, r.fault);
        }
      case Raise(q, f) =>
        FlattenFlush(moved, buf);
        AllUnflushed(buf);
        assert Singles(buf) + [] == Singles(buf);
        assert DropUnflushed(Singles(buf)) == [];
    }
  }

  lemma Reacts(p: ParseState, b: byte)
    ensures React(p, b).Raise? ==> React(p, b).fault.Stumped? || React(p, b).fault.EmptyNegotiation?
    ensures React(p, b).Emit? ==> !React(p, b).event.AppData?
  {
  }

  lemma LoggedFlattens(e: End, buf: seq<byte>, q: ParseState, ev: Event)
    requires !ev.AppData?
    ensures Flatten(Logged(e, buf, q, ev).log) == Flatten(e.log) + (Singles(buf) + [ev])
  {
    FlattenFlush(e.(parser := q), buf);
    FlattenAppend(e.(parser := q).Flush(buf).log, [ev]);
    assert Flatten([ev]) == [ev] + Flatten([]) == [ev];
  }

  lemma DeliveredOverEvent(log: seq<Event>, buf: seq<Event>, ev: Event, t: seq<Event>, f: Fault)
    requires !ev.AppData?
    ensures log + (buf + [ev]) + Delivered(Singles([]) + t, f) == log + Delivered(buf + ([ev] + t), f)
  {
    assert Singles([]) + t == t;
    assert buf + ([ev] + t) == buf + [ev] + t;
    UnflushedOverEvent(buf, ev, t);
    hide Unflushed, DropUnflushed, Singles;
    assert log + (buf + [ev]) + Delivered(t, f) == log + (buf + [ev] + Delivered(t, f));
  }

  // ---------------------------------------------------------------- chunking

  function Joined(chunks: seq<seq<byte>>): seq<byte> {
    if chunks == [] then [] else chunks[0] + Joined(chunks[1..])
  }

  /** Same fault, parser, negotiation, and same log up to merging adjacent application data. */
  ghost predicate SameUpToMerging(x: (End, Fault), y: (End, Fault)) {
    && x.1 == y.1
    && x.0.parser == y.0.parser
    && x.0.neg == y.0.neg
    && Flatten(x.0.log) == Flatten(y.0.log)
  }

  /** `log` grew by these tokens, all of them unless an unknown command cut the stream short. */
  ghost predicate GrewBy(before: seq<Event>, after: seq<Event>, tokens: seq<Event>, f: Fault) {
    && (!f.Stumped? ==> after == before + tokens)
    && (f.Stumped? ==> before + DropUnflushed(tokens) <= after <= before + tokens)
  }

  /** However a stream is cut, the calls together parse, negotiate and fail as one call would;
      and they deliver the same, except that after an unknown command one call may have dropped
      application data that earlier calls had already delivered. */
  lemma {:induction false} ChunksParseAlike(e: End, chunks: seq<seq<byte>>)
    ensures var (e', f) := ReceiveAll(e, chunks);
            var r := Run(e.parser, e.neg, Joined(chunks));
            f == r.fault && e'.parser == r.parser && e'.neg == r.neg
            && GrewBy(Flatten(e.log), Flatten(e'.log), r.tokens, f)
    decreases |chunks|
  {
    if chunks == [] {
      assert Flatten(e.log) + [] == Flatten(e.log);
    } else {
      var x, y := chunks[0], Joined(chunks[1..]);
      FirstChunk(e, x);
      RunAppend(e.parser, e.neg, x, y);
      var (e1, f1) := Receive(e, [], x);
      if f1.NoFault? {
        ChunksParseAlike(e1, chunks[1..]);
        var r1 := Run(e.parser, e.neg, x);
        GrowsTwice(Flatten(e.log), r1.tokens, Flatten(ReceiveAll(e1, chunks[1..]).0.log), Run(r1.parser, r1.neg, y));
      }
    }
  }

  lemma FirstChunk(e: End, x: seq<byte>)
    ensures var (e', f) := Receive(e, [], x);
            var r := Run(e.parser, e.neg, x);
            f == r.fault && e'.parser == r.parser && e'.neg == r.neg
            && Flatten(e'.log) == Flatten(e.log) + Delivered(r.tokens, f)
            && GrewBy(Flatten(e.log), Flatten(e'.log), r.tokens, f)
  {
    ReceiveIsRun(e, [], x);
    var r := Run(e.parser, e.neg, x);
    assert Singles([]) + r.tokens == r.tokens;
    DropIsPrefix(Flatten(e.log), r.tokens);
  }

  lemma DropIsPrefix(log: seq<Event>, tokens: seq<Event>)
    ensures log + DropUnflushed(tokens) <= log + tokens
  {
  }

  lemma GrowsTwice(before: seq<Event>, x: seq<Event>, after: seq<Event>, r: Ran)
    requires GrewBy(before + x, after, r.tokens, r.fault)
    ensures GrewBy(before, after, x + r.tokens, r.fault)
  {
    Assoc(before, x, r.tokens);
    if r.fault.Stumped? {
      UnflushedAfter(x, r.tokens);
      PrefixOfBoth(before, x, DropUnflushed(x + r.tokens), DropUnflushed(r.tokens));
    }
  }

  lemma PrefixOfBoth(log: seq<Event>, x: seq<Event>, dropAll: seq<Event>, dropLast: seq<Event>)
    requires dropAll <= x + dropLast
    ensures log + dropAll <= log + x + dropLast
  {
  }

  lemma {:induction false} UnflushedAfter(x: seq<Event>, y: seq<Event>)
    ensures Unflushed(y) <= Unflushed(x + y)
    ensures DropUnflushed(x + y) <= x + DropUnflushed(y)
    decreases |y|
  {
    if y != [] {
      assert (x + y)[|x + y| - 1] == y[|y| - 1];
      if y[|y| - 1].AppData? {
        assert (x + y)[..|x + y| - 1] == x + y[..|y| - 1];
        UnflushedAfter(x, y[..|y| - 1]);
      }
    }
    var k := Unflushed(y);
    assert x + DropUnflushed(y) == (x + y)[..|x + y| - k];
  }

  /** Where an unknown command makes the parser raise, the bytes before it parse without fault. */
  lemma {:induction false} SplitAtFault(p: ParseState, n: Negotiator, data: seq<byte>) returns (x: seq<byte>,
        y: seq<byte>)
    requires Run(p, n, data).fault.Stumped?
    ensures data == x + y
    ensures var r := Run(p, n, x);
            r.fault.NoFault? && r.tokens == Run(p, n, data).tokens
            && Run(r.parser, r.neg, y).fault.Stumped? && Run(r.parser, r.neg, y).tokens == []
    decreases |data|
  {
    var a := React(p, data[0]);
    if a.Raise? {
      x, y := [], data;
    } else {
      var n' := if a.Emit? then Dispatch(n, a.event).0 else n;
      var x';
      x', y := SplitAtFault(a.next, n', data[1..]);
      x := [data[0]] + x';
      assert x[1..] == x';
      assert data == [data[0]] + data[1..];
    }
  }

  ghost predicate ChunkingIrrelevant(e: End, data: seq<byte>) {
    forall chunks :: Joined(chunks) == data ==> SameUpToMerging(ReceiveAll(e, chunks), Receive(e, [], data))
  }

  /** Chunking does not matter for a stream if and only if the stream does not run into an
      unknown command while application data is waiting to be delivered. */
  lemma ChunkIndependence(e: End, data: seq<byte>)
    ensures ChunkingIrrelevant(e, data)
            <==> !(Run(e.parser, e.neg, data).fault.Stumped? && Unflushed(Run(e.parser, e.neg, data).tokens) > 0)
  {
    var r := Run(e.parser, e.neg, data);
    FirstChunk(e, data);
    if r.fault.Stumped? && Unflushed(r.tokens) > 0 {
      var x, y := SplitAtFault(e.parser, e.neg, data);
      FirstChunk(e, x);
      FirstChunk(Receive(e, [], x).0, y);
      var cut := [x, y];
      assert cut[1..] == [y] && [y][1..] == [];
      assert Joined([y]) == y + Joined([]) == y;
      assert Joined(cut) == data;
      assert ReceiveAll(e, cut).0 == ReceiveAll(Receive(e, [], x).0, [y]).0 == Receive(Receive(e, [], x).0, [], y).0;
      assert Flatten(ReceiveAll(e, cut).0.log) == Flatten(e.log) + r.tokens + [];
      assert |Flatten(ReceiveAll(e, cut).0.log)| > |Flatten(Receive(e, [], data).0.log)|;
      assert !SameUpToMerging(ReceiveAll(e, cut), Receive(e, [], data));
    } else {
      forall chunks | Joined(chunks) == data
        ensures SameUpToMerging(ReceiveAll(e, chunks), Receive(e, [], data))
      {
        ChunksParseAlike(e, chunks);
        assert r.fault.Stumped? ==> DropUnflushed(r.tokens) == r.tokens;
      }
    }
  }

  /** The commands among the tokens, heard one after the other. */
  function HearAll(n: Negotiator, tokens: seq<Event>): Negotiator
    decreases |tokens|
  {
    if tokens == [] then n else HearAll(Dispatch(n, tokens[0]).0, tokens[1..])
  }

  /** Handlers have no say in what is parsed: unless one of them raises, exactly what the parser makes
      of the stream is delivered, and the negotiation hears exactly the commands in it. */
  lemma {:induction false} RunIsParse(p: ParseState, n: Negotiator, data: seq<byte>)
    ensures var (r, q) := (Run(p, n, data), Parse(p, data));
            && (if r.fault.HandlerFailed? then r.tokens <= q.tokens
                else r.tokens == q.tokens && r.parser == q.state && r.fault == q.fault)
            && r.neg == HearAll(n, r.tokens)
    decreases |data|
  {
    hide React, Dispatch, Singles;
    if data != [] {
      var a, rest := React(p, data[0]), data[1..];
      Reacts(p, data[0]);
      if a.Buffer? {
        RunIsParse(a.next, n, rest);
        HearNothing(n, a.data, Run(a.next, n, rest).tokens);
      } else if a.Emit? {
        var n' := Dispatch(n, a.event).0;
        RunIsParse(a.next, n', rest);
        assert ([a.event] + Run(a.next, n', rest).tokens)[1..] == Run(a.next, n', rest).tokens;
        assert [a.event][1..] == [];
      } else if a.Shift? {
        RunIsParse(a.next, n, rest);
      }
    }
  }

  lemma {:induction false} HearNothing(n: Negotiator, data: seq<byte>, rest: seq<Event>)
    ensures HearAll(n, Singles(data) + rest) == HearAll(n, rest)
  {
    if data == [] {
      assert Singles(data) + rest == rest;
    } else {
      HearNothing(n, data[1..], rest);
      assert (Singles(data) + rest)[0] == AppData([data[0]]);
      assert (Singles(data) + rest)[1..] == Singles(data[1..]) + rest;
    }
  }

  lemma {:induction false} NoHandlerFails(p: ParseState, n: Negotiator, data: seq<byte>)
    requires forall ev :: ev in Parse(p, data).tokens ==> !IsHeard(ev)
    ensures !Run(p, n, data).fault.HandlerFailed?
    decreases |data|
  {
    hide React, Singles;
    if data != [] {
      var a := React(p, data[0]);
      Reacts(p, data[0]);
      if !a.Raise? {
        assert forall ev :: ev in Parse(a.next, data[1..]).tokens ==> ev in Parse(p, data).tokens;
        assert a.Emit? ==> a.event in Parse(p, data).tokens;
        NoHandlerFails(a.next, n, data[1..]);
      }
    }
  }

  lemma {:induction false} NothingAsked(items: seq<Item>)
    requires forall i :: 0 <= i < |items| ==> !items[i].Ask?
    ensures forall ev :: ev in Intended(items) ==> !IsHeard(ev)
  {
    if items != [] {
      NothingAsked(items[1..]);
    }
  }

  lemma {:induction false} HearNoCommand(n: Negotiator, items: seq<Item>)
    requires forall i :: 0 <= i < |items| ==> !items[i].Ask?
    ensures HearAll(n, Intended(items)) == n
  {
    if items != [] {
      HearNoCommand(n, items[1..]);
      if items[0].WriteData? {
        HearNothing(n, items[0].data, Intended(items[1..]));
      } else {
        assert Intended(items)[0] == Meant(items[0])[0] && Intended(items)[1..] == Intended(items[1..]);
      }
    }
  }

  /** What one end writes the application of the other is given, however the network cuts it: data,
      plain commands and subnegotiations, in order, up to merging data, if its CRs are safe. */
  lemma PrintedIsDelivered(e: End, items: seq<Item>, chunks: seq<seq<byte>>)
    requires e.parser == Data && Printable(items) && CrSafe(false, items) && Joined(chunks) == Print(items)
    requires forall i :: 0 <= i < |items| ==> !items[i].Ask?
    ensures var (e', f) := ReceiveAll(e, chunks);
            && f == NoFault && e'.parser == Data && e'.neg == e.neg
            && Flatten(e'.log) == Flatten(e.log) + Intended(items)
  {
    ChunksParseAlike(e, chunks);
    StreamRoundTrip(Data, items);
    assert Owed(Data) + Intended(items) == Intended(items);
    RunIsParse(Data, e.neg, Print(items));
    NothingAsked(items);
    NoHandlerFails(Data, e.neg, Print(items));
    HearNoCommand(e.neg, items);
  }

  // ---------------------------------------------------------------- the object

  /** The attributes `command` and `commands` exist exactly in the states that use them. */
  datatype Mode = InData | InEscaped | InCommand | InNewline | InSubnegotiation | InSubnegotiationEscaped

  class Telnet {
    const policy: Policy
    var mode: Mode
    var command: Option<byte>
    var commands: Option<seq<byte>>
    var options: map<byte, OptionState>
    var outbox: seq<byte>       // bytes handed to the transport
    var issued: nat             // Deferreds made so far, named 0, 1, ...
    var fired: seq<Firing>
    var log: seq<Event>         // what the application was told

    ghost predicate Valid()
      reads this
    {
      && (command.Some? <==> mode == InCommand)
      && (commands.Some? <==> mode == InSubnegotiation || mode == InSubnegotiationEscaped)
      && Accounted(Neg())
    }

    function Neg(): Negotiator
      reads this`options, this`outbox, this`issued, this`fired
    {
      Negotiator(policy, options, outbox, issued, fired)
    }

    function Parser(): ParseState
      requires command.Some? <==> mode == InCommand
      requires commands.Some? <==> mode == InSubnegotiation || mode == InSubnegotiationEscaped
      reads this
    {
      match mode
      case InData => Data
      case InEscaped => Escaped
      case InCommand => Command(command.value)
      case InNewline => Newline
      case InSubnegotiation => Subnegotiation(commands.value)
      case InSubnegotiationEscaped => SubnegotiationEscaped(commands.value)
    }

    ghost function Model(): End
      requires Valid()
      reads this
    {
      End(Parser(), Neg(), log)
    }

    constructor (policy: Policy)
      ensures Valid() && this.policy == policy
      ensures Model() == End(Data, Negotiator(policy, map[], [], 0, []), [])
    {
      this.policy := policy;
      mode, command, commands := InData, None, None;
      options, outbox, issued, fired, log := map[], [], 0, [], [];
    }

    /** `getOptionState`. */
    method GetOptionState(option: byte) returns (s: OptionState)
      modifies this`options
      ensures Neg() == old(Neg()).Touch(option) && s == Neg().Get(option) && option in options
    {
      if option !in options {
        options := options[option := OptionState(FRESH, FRESH)];
      }
      s := options[option];
    }

    method Write(data: seq<byte>)
      modifies this`outbox
      ensures outbox == old(outbox) + data
    {
      outbox := outbox + data;
    }

    // -------------------------------------------------------------- requests of the application

    method Will(option: byte) returns (answer: Answer)
      requires Valid()
      modifies this`options, this`outbox, this`issued
      ensures Valid() && (Neg(), answer) == AskPeer(old(Neg()), option, Us, true)
    {
      AskKeepsAccounts(Neg(), option, Us, true);
      var s := GetOptionState(option);
      if s.us.negotiating || s.him.negotiating {
        answer := AlreadyNegotiating;
      } else if s.us.enabled {
        answer := AlreadyEnabled;
      } else {
        options := options[option := s.(us := s.us.(negotiating := true, onResult := Some(issued)))];
        answer := Pending(issued);
        issued := issued + 1;
        Write([IAC, WILL, option]);
      }
      assert options == old(options)[option := options[option]];
    }

    method Wont(option: byte) returns (answer: Answer)
      requires Valid()
      modifies this`options, this`outbox, this`issued
      ensures Valid() && (Neg(), answer) == AskPeer(old(Neg()), option, Us, false)
    {
      AskKeepsAccounts(Neg(), option, Us, false);
      var s := GetOptionState(option);
      if s.us.negotiating || s.him.negotiating {
        answer := AlreadyNegotiating;
      } else if !s.us.enabled {
        answer := AlreadyDisabled;
      } else {
        options := options[option := s.(us := s.us.(negotiating := true, onResult := Some(issued)))];
        answer := Pending(issued);
        issued := issued + 1;
        Write([IAC, WONT, option]);
      }
      assert options == old(options)[option := options[option]];
    }

    method Do(option: byte) returns (answer: Answer)
      requires Valid()
      modifies this`options, this`outbox, this`issued
      ensures Valid() && (Neg(), answer) == AskPeer(old(Neg()), option, Him, true)
    {
      AskKeepsAccounts(Neg(), option, Him, true);
      var s := GetOptionState(option);
      if s.us.negotiating || s.him.negotiating {
        answer := AlreadyNegotiating;
      } else if s.him.enabled {
        answer := AlreadyEnabled;
      } else {
        options := options[option := s.(him := s.him.(negotiating := true, onResult := Some(issued)))];
        answer := Pending(issued);
        issued := issued + 1;
        Write([IAC, DO, option]);
      }
      assert options == old(options)[option := options[option]];
    }

    method Dont(option: byte) returns (answer: Answer)
      requires Valid()
      modifies this`options, this`outbox, this`issued
      ensures Valid() && (Neg(), answer) == AskPeer(old(Neg()), option, Him, false)
    {
      AskKeepsAccounts(Neg(), option, Him, false);
      var s := GetOptionState(option);
      if s.us.negotiating || s.him.negotiating {
        answer := AlreadyNegotiating;
      } else if !s.him.enabled {
        answer := AlreadyDisabled;
      } else {
        options := options[option := s.(him := s.him.(negotiating := true, onResult := Some(issued)))];
        answer := Pending(issued);
        issued := issued + 1;
        Write([IAC, DONT, option]);
      }
      assert options == old(options)[option := options[option]];
    }

    /** `requestNegotiation`. */
    method RequestNegotiation(about: byte, payload: seq<byte>)
      requires Valid()
      modifies this`outbox
      ensures Valid() && Neg() == old(Neg()).(outbox := old(outbox) + PrintItem(Request(about, payload)))
    {
      SameViewsSameAccounts(Neg(), Neg().(outbox := outbox + PrintNegotiation(about, payload)));
      Write([IAC, SB, about] + DoubleIac(payload) + [IAC, SE]);
    }

    /** `TelnetTransport.write` over `ProtocolTransportMixin.write`. */
    method WriteApplicationData(data: seq<byte>)
      requires Valid()
      modifies this`outbox
      ensures Valid() && Neg() == old(Neg()).(outbox := old(outbox) + PrintItem(WriteData(data)))
    {
      SameViewsSameAccounts(Neg(), Neg().(outbox := outbox + PrintData(data)));
      Write(ExpandNewlines(DoubleIac(data)));
    }

    // -------------------------------------------------------------- commands from the peer

    method TelnetWill(option: byte) returns (ok: bool)
      requires Valid()
      modifies this`options, this`outbox, this`fired
      ensures Valid() && (Neg(), ok) == OnCommand(old(Neg()), WILL, option)
    {
      HearKeepsAccounts(Neg(), WILL, option);
      var accept := option in policy.remote;
      var s := GetOptionState(option);
      ok := true;
      if !s.him.enabled && !s.him.negotiating {          // will_no_false
        if accept {
          options := options[option := s.(him := s.him.(enabled := true))];
          Write([IAC, DO, option]);
        } else {
          Write([IAC, DONT, option]);
        }
      } else if !s.him.enabled {                         // will_no_true
        var d := s.him.onResult;
        options := options[option := s.(him := Perspective(true, false, None))];
        fired := fired + [Firing(d.value, Granted)];
        ok := accept;
      } else if s.him.negotiating {                      // will_yes_true
        ok := false;
      }
      assert options == old(options)[option := options[option]];
    }

    method TelnetWont(option: byte) returns (ok: bool)
      requires Valid()
      modifies this`options, this`outbox, this`fired
      ensures Valid() && (Neg(), ok) == OnCommand(old(Neg()), WONT, option)
    {
      HearKeepsAccounts(Neg(), WONT, option);
      var s := GetOptionState(option);
      ok := true;
      if !s.him.enabled && s.him.negotiating {           // wont_no_true
        var d := s.him.onResult;
        options := options[option := s.(him := s.him.(negotiating := false, onResult := None))];
        fired := fired + [Firing(d.value, Refused)];
      } else if s.him.enabled && !s.him.negotiating {    // wont_yes_false
        options := options[option := s.(him := s.him.(enabled := false))];
        Write([IAC, DONT, option]);
      } else if s.him.enabled {                          // wont_yes_true
        var d := s.him.onResult;
        options := options[option := s.(him := Perspective(false, false, None))];
        fired := fired + [Firing(d.value, Granted)];
      }
      assert options == old(options)[option := options[option]];
    }

    method TelnetDo(option: byte) returns (ok: bool)
      requires Valid()
      modifies this`options, this`outbox, this`fired
      ensures Valid() && (Neg(), ok) == OnCommand(old(Neg()), DO, option)
    {
      HearKeepsAccounts(Neg(), DO, option);
      var s := GetOptionState(option);
      ok := true;
      if !s.us.enabled && !s.us.negotiating {            // do_no_false
        if option in policy.local {
          options := options[option := s.(us := s.us.(enabled := true))];
          Write([IAC, WILL, option]);
        } else {
          Write([IAC, WONT, option]);
        }
      } else if !s.us.enabled {                          // do_no_true
        var d := s.us.onResult;
        options := options[option := s.(us := Perspective(true, false, None))];
        fired := fired + [Firing(d.value, Granted)];
      } else if s.us.negotiating {                       // do_yes_true
        ok := false;
      }
      assert options == old(options)[option := options[option]];
    }

    method TelnetDont(option: byte) returns (ok: bool)
      requires Valid()
      modifies this`options, this`outbox, this`fired
      ensures Valid() && (Neg(), ok) == OnCommand(old(Neg()), DONT, option)
    {
      HearKeepsAccounts(Neg(), DONT, option);
      var s := GetOptionState(option);
      ok := true;
      if !s.us.enabled && s.us.negotiating {             // dont_no_true
        var d := s.us.onResult;
        options := options[option := s.(us := s.us.(negotiating := false, onResult := None))];
        fired := fired + [Firing(d.value, Refused)];
      } else if s.us.enabled && !s.us.negotiating {      // dont_yes_false
        options := options[option := s.(us := s.us.(enabled := false))];
        Write([IAC, WONT, option]);
      } else if s.us.enabled {                           // dont_yes_true
        var d := s.us.onResult;
        options := options[option := s.(us := Perspective(false, false, None))];
        fired := fired + [Firing(d.value, Granted)];
      }
      assert options == old(options)[option := options[option]];
    }

    /** `commandReceived`: look the command up in `commandMap`. */
    method HandleCommand(code: byte, argument: Option<byte>) returns (ok: bool)
      requires Valid()
      modifies this`options, this`outbox, this`fired, this`log
      ensures Valid() && (Neg(), ok) == Dispatch(old(Neg()), CommandReceived(code, argument))
      ensures log == old(log) + [CommandReceived(code, argument)]
    {
      ok := true;
      if argument.Some? {
        if code == WILL {
          ok := TelnetWill(argument.value);
        } else if code == WONT {
          ok := TelnetWont(argument.value);
        } else if code == DO {
          ok := TelnetDo(argument.value);
        } else if code == DONT {
          ok := TelnetDont(argument.value);
        }
      }
      log := log + [CommandReceived(code, argument)];
    }

    /** The body of the loop in `dataReceived`. */
    method ByteReceived(b: byte, appDataBuffer: seq<byte>) returns (rest: seq<byte>, fault: Fault)
      requires Valid()
      modifies this`mode, this`command, this`commands, this`options, this`outbox, this`fired, this`log
      ensures Valid() && (Model(), rest, fault) == ReceiveByte(old(Model()), appDataBuffer, b)
    {
      OthersAreNotHeard(Neg());
      hide Dispatch, Accounted;
      rest, fault := appDataBuffer, NoFault;
      match mode {
        case InData =>
          if b == IAC {
            mode := InEscaped;
          } else if b == CR {
            mode := InNewline;
          } else {
            rest := rest + [b];
          }
        case InEscaped =>
          if b == IAC {
            rest := rest + [b];
            mode := InData;
          } else if b == SB {
            mode := InSubnegotiation;
            commands := Some([]);
          } else if NOP <= b <= GA {
            mode := InData;
            if rest != [] {
              log := log + [AppData(rest)];
              rest := [];
            }
            var ok := HandleCommand(b, None);
          } else if b == WILL || b == WONT || b == DO || b == DONT {
            mode := InCommand;
            command := Some(b);
          } else {
            return [], Stumped(b);
          }
        case InCommand =>
          mode := InData;
          var c := command.value;
          command := None;
          if rest != [] {
            log := log + [AppData(rest)];
            rest := [];
          }
          var ok := HandleCommand(c, Some(b));
          if !ok {
            return [], HandlerFailed;
          }
        case InNewline =>
          mode := InData;
          if b == LF {
            rest := rest + [LF];
          } else if b == NUL {
            rest := rest + [CR];
          } else if b == IAC {
            rest := rest + [CR];
            mode := InEscaped;
          } else {
            rest := rest + [CR, b];
          }
        case InSubnegotiation =>
          if b == IAC {
            mode := InSubnegotiationEscaped;
          } else {
            commands := Some(commands.value + [b]);
          }
        case InSubnegotiationEscaped =>
          if b == SE {
            mode := InData;
            var cs := commands.value;
            commands := None;
            if rest != [] {
              log := log + [AppData(rest)];
              rest := [];
            }
            if cs == [] {
              return [], EmptyNegotiation;
            }
            log := log + [Negotiate(cs[0], cs[1..])];
          } else {
            mode := InSubnegotiation;
            commands := Some(commands.value + [b]);
          }
      }
    }

    method DataReceived(data: seq<byte>) returns (fault: Fault)
      requires Valid()
      modifies this`mode, this`command, this`commands, this`options, this`outbox, this`fired, this`log
      ensures Valid() && (Model(), fault) == Receive(old(Model()), [], data)
    {
      var appDataBuffer: seq<byte> := [];
      var i := 0;
      assert data[0..] == data;
      while i < |data|
        invariant 0 <= i <= |data| && Valid()
        invariant Receive(Model(), appDataBuffer, data[i..]) == Receive(old(Model()), [], data)
      {
        assert data[i..][0] == data[i] && data[i..][1..] == data[i + 1..];
        appDataBuffer, fault := ByteReceived(data[i], appDataBuffer);
        if !fault.NoFault? {
          return;
        }
        i := i + 1;
      }
      if appDataBuffer != [] {
        log := log + [AppData(appDataBuffer)];
      }
      return NoFault;
    }

    /** `connectionLost`: every Deferred still outstanding fails, so that by then each request's
        Deferred has fired, exactly once. */
    method ConnectionLost()
      requires Valid()
      modifies this`options, this`fired
      ensures issued == old(issued) && old(fired) <= fired && Ledger(Neg())
      ensures forall id: nat :: id < issued ==> HasFired(Neg(), id)
      ensures forall k :: |old(fired)| <= k < |fired| ==> fired[k].outcome == Disconnected
    {
      var todo := options.Keys;
      while todo != {}
        invariant Ledger(Neg()) && todo <= options.Keys
        invariant issued == old(issued) && old(fired) <= fired
        invariant forall o, s :: o !in todo ==> Neg().View(o, s).onResult.None?
        invariant forall k :: |old(fired)| <= k < |fired| ==> fired[k].outcome == Disconnected
        decreases todo
      {
        var option :| option in todo;
        todo := todo - {option};
        Release(option, Us);
        Release(option, Him);
      }
      forall id: nat | id < issued
        ensures HasFired(Neg(), id)
      {
        assert !Outstanding(Neg(), id);
      }
    }

    method Release(option: byte, side: Side)
      requires Ledger(Neg()) && option in options
      modifies this`options, this`fired
      ensures Ledger(Neg()) && options.Keys == old(options.Keys) && old(fired) <= fired
      ensures forall o, s :: Neg().View(o, s).onResult ==
                             if o == option && s == side then None else old(Neg()).View(o, s).onResult
      ensures forall k :: |old(fired)| <= k < |fired| ==> fired[k].outcome == Disconnected
    {
      var p := options[option].View(side);
      if p.onResult.Some? {
        ReleaseKeepsLedger(Neg(), option, side, Disconnected);
        PutView(Neg(), option, side, p.(onResult := None));
        options := options[option := options[option].With(side, p.(onResult := None))];
        fired := fired + [Firing(p.onResult.value, Disconnected)];
      }
    }
  }
}
