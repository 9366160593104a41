/** The byte level of the telnet protocol: the parser of `Telnet.dataReceived` one byte at a
    time, the printer of the commands and data this side sends, and the laws between them. */
module TelnetWire {
  import opened Prelude

  const NUL: byte := 0
  const LF: byte := 10
  const CR: byte := 13
  const SE: byte := 240
  const NOP: byte := 241
  const GA: byte := 249
  const SB: byte := 250
  const WILL: byte := 251
  const WONT: byte := 252
  const DO: byte := 253
  const DONT: byte := 254
  const IAC: byte := 255

  /** NOP, DM, BRK, IP, AO, AYT, EC, EL and GA are the consecutive codes 241 to 249. */
  predicate IsPlainCommand(b: byte) { NOP <= b <= GA }

  predicate IsNegotiationCommand(b: byte) { b == WILL || b == WONT || b == DO || b == DONT }

  /** The parse state, with `command` and `commands` exactly where the code keeps them. */
  datatype ParseState =
    | Data
    | Escaped
    | Command(command: byte)
    | Newline
    | Subnegotiation(commands: seq<byte>)
    | SubnegotiationEscaped(commands: seq<byte>)

  /** What the parser hands on. */
  datatype Event =
    | AppData(data: seq<byte>)
    | CommandReceived(code: byte, argument: Option<byte>)
    | Negotiate(about: byte, payload: seq<byte>)

  datatype Fault = NoFault | Stumped(code: byte) | EmptyNegotiation | HandlerFailed

  /** What one byte does: only move, buffer application data, deliver an event, or raise. */
  datatype Reaction =
    | Shift(next: ParseState)
    | Buffer(next: ParseState, data: seq<byte>)
    | Emit(next: ParseState, event: Event)
    | Raise(next: ParseState, fault: Fault)

  function React(p: ParseState, b: byte): Reaction {
    match p
    case Data =>
      if b == IAC then Shift(Escaped)
      else if b == CR then Shift(Newline)
      else Buffer(Data, [b])
    case Escaped =>
      if b == IAC then Buffer(Data, [b])
      else if b == SB then Shift(Subnegotiation([]))
      else if IsPlainCommand(b) then Emit(Data, CommandReceived(b, None))
      else if IsNegotiationCommand(b) then Shift(Command(b))
      else Raise(Escaped, Stumped(b))
    case Command(c) => Emit(Data, CommandReceived(c, Some(b)))
    case Newline =>
      if b == LF then Buffer(Data, [LF])
      else if b == NUL then Buffer(Data, [CR])
      else if b == IAC then Buffer(Escaped, [CR])
      else Buffer(Data, [CR, b])
    case Subnegotiation(cs) =>
      if b == IAC then Shift(SubnegotiationEscaped(cs)) else Shift(Subnegotiation(cs + [b]))
    case SubnegotiationEscaped(cs) =>
      if b == SE then
        if cs == [] then Raise(Data, EmptyNegotiation) else Emit(Data, Negotiate(cs[0], cs[1..]))
      else Shift(Subnegotiation(cs + [b]))
  }

  /** Application data one byte per event: two logs are the same up to merging and splitting
      adjacent data exactly when their flattened forms are equal. */
  function Singles(data: seq<byte>): (r: seq<Event>)
    ensures |r| == |data| && forall i :: 0 <= i < |r| ==> r[i] == AppData([data[i]])
  {
    seq(|data|, i requires 0 <= i < |data| => AppData([data[i]]))
  }

  function Flatten(log: seq<Event>): seq<Event> {
    if log == [] then []
    else (if log[0].AppData? then Singles(log[0].data) else [log[0]]) + Flatten(log[1..])
  }

  lemma {:induction false} FlattenAppend(x: seq<Event>, y: seq<Event>)
    ensures Flatten(x + y) == Flatten(x) + Flatten(y)
  {
    if x == [] {
      assert x + y == y;
    } else {
      assert (x + y)[1..] == x[1..] + y;
      FlattenAppend(x[1..], y);
    }
  }

  lemma SinglesAppend(x: seq<byte>, y: seq<byte>)
    ensures Singles(x + y) == Singles(x) + Singles(y)
  {
  }

  /** Parsing alone, with no buffering and no handlers: the reference the code is compared to. */
  datatype Parsed = Parsed(state: ParseState, tokens: seq<Event>, fault: Fault)

  function Prepend(tokens: seq<Event>, r: Parsed): Parsed { r.(tokens := tokens + r.tokens) }

  function Parse(p: ParseState, data: seq<byte>): Parsed
    decreases |data|, 0
  {
    if data == [] then Parsed(p, [], NoFault) else Resume(React(p, data[0]), data[1..])
  }

  function Resume(a: Reaction, rest: seq<byte>): Parsed
    decreases |rest|, 1
  {
    match a
    case Shift(q) => Parse(q, rest)
    case Buffer(q, bs) => Prepend(Singles(bs), Parse(q, rest))
    case Emit(q, ev) => Prepend([ev], Parse(q, rest))
    case Raise(q, f) => Parsed(q, [], f)
  }

  lemma {:induction false} ParseAppend(p: ParseState, x: seq<byte>, y: seq<byte>)
    ensures var r := Parse(p, x);
            Parse(p, x + y) == if r.fault.NoFault? then Prepend(r.tokens, Parse(r.state, y)) else r
    decreases |x|
  {
    if x == [] {
      assert x + y == y;
      assert Prepend([], Parse(p, y)) == Parse(p, y);
    } else {
      assert (x + y)[1..] == x[1..] + y;
      var a := React(p, x[0]);
      if !a.Raise? {
        ParseAppend(a.next, x[1..], y);
        var r := Parse(a.next, x[1..]);
        if a.Buffer? {
          assert Singles(a.data) + (r.tokens + Parse(r.state, y).tokens)
              == (Singles(a.data) + r.tokens) + Parse(r.state, y).tokens;
        } else if a.Emit? {
          assert [a.event] + (r.tokens + Parse(r.state, y).tokens) == ([a.event] + r.tokens) + Parse(r.state, y).tokens;
        }
      }
    }
  }

  // ---------------------------------------------------------------- the printer

  /** `data.replace(IAC, IAC * 2)`. */
  function DoubleIac(data: seq<byte>): seq<byte> {
    if data == [] then []
    else (if data[0] == IAC then [IAC, IAC] else [data[0]]) + DoubleIac(data[1..])
  }

  /** `data.replace(b'\n', b'\r\n')`. */
  function ExpandNewlines(data: seq<byte>): seq<byte> {
    if data == [] then []
    else (if data[0] == LF then [CR, LF] else [data[0]]) + ExpandNewlines(data[1..])
  }

  /** `TelnetTransport.write`. */
  function PrintData(data: seq<byte>): seq<byte> { ExpandNewlines(DoubleIac(data)) }

  function PrintCommand(code: byte, option: byte): seq<byte> { [IAC, code, option] }

  function PrintNegotiation(about: byte, payload: seq<byte>): seq<byte> {
    [IAC, SB, about] + DoubleIac(payload) + [IAC, SE]
  }

  /** `PrintData` byte by byte, so that proofs can follow the data. */
  lemma {:induction false} PrintDataStep(b: byte, rest: seq<byte>)
    ensures PrintData([b] + rest)
         == (if b == IAC then [IAC, IAC] else if b == LF then [CR, LF] else [b]) + PrintData(rest)
  {
    var d := DoubleIac(rest);
    assert ([b] + rest)[1..] == rest;
    if b == IAC {
      assert DoubleIac([b] + rest) == [IAC] + ([IAC] + d);
      assert ([IAC] + ([IAC] + d))[1..] == [IAC] + d;
      assert ([IAC] + d)[1..] == d;
      assert ExpandNewlines([IAC] + d) == [IAC] + ExpandNewlines(d);
      assert ExpandNewlines([IAC] + ([IAC] + d)) == [IAC] + ExpandNewlines([IAC] + d);
      assert [IAC] + ([IAC] + ExpandNewlines(d)) == [IAC, IAC] + ExpandNewlines(d);
    } else {
      assert DoubleIac([b] + rest) == [b] + d;
      assert ([b] + d)[1..] == d;
    }
  }

  /** A point between two items, where the next item may be printed: a CR may be pending. */
  predicate Between(p: ParseState) { p.Data? || p.Newline? }

  /** The application data still owed by a pending CR. */
  function Owed(p: ParseState): seq<Event> { if p.Newline? then [AppData([CR])] else [] }

  lemma ParseStep(p: ParseState, b: byte, rest: seq<byte>)
    ensures Parse(p, [b] + rest) == Resume(React(p, b), rest)
  {
    assert ([b] + rest)[1..] == rest;
  }

  lemma ParseNothing()
    ensures forall p :: Parse(p, []) == Parsed(p, [], NoFault)
  {
  }

  /** A printed option command comes back as that command, after any pending CR. */
  lemma CommandRoundTrip(p: ParseState, code: byte, option: byte)
    requires Between(p) && IsNegotiationCommand(code)
    ensures Parse(p, PrintCommand(code, option))
         == Parsed(Data, Owed(p) + [CommandReceived(code, Some(option))], NoFault)
  {
    assert [IAC, code, option] == [IAC] + ([code] + [option]);
    ParseStep(p, IAC, [code] + [option]);
    ParseStep(Escaped, code, [option]);
    assert [option] == [option] + [];
    ParseStep(Command(code), option, []);
  }

  /** The nine commands without an argument, NOP to GA, are delivered, after any pending CR. */
  lemma PlainCommandRoundTrip(p: ParseState, code: byte)
    requires Between(p) && 241 <= code <= 249
    ensures Parse(p, [255, code]) == Parsed(Data, Owed(p) + [CommandReceived(code, None)], NoFault)
  {
    assert [255, code] == [IAC] + ([code] + []);
    ParseStep(p, IAC, [code] + []);
    ParseStep(Escaped, code, []);
  }

  /** After an IAC exactly the bytes below NOP make the parser raise. */
  lemma UnknownCommandRaises(p: ParseState, b: byte)
    requires Between(p)
    ensures Parse(p, [255, b]).fault == if b < 241 then Stumped(b) else NoFault
  {
    assert [255, b] == [IAC] + ([b] + []);
    ParseStep(p, IAC, [b] + []);
    ParseStep(Escaped, b, []);
  }

  /** The only other input that does is the end of a subnegotiation that holds nothing. */
  lemma EmptyNegotiationRaises(p: ParseState, b: byte)
    requires !p.Escaped?
    ensures Parse(p, [b]).fault == if p == SubnegotiationEscaped([]) && b == 240 then EmptyNegotiation else NoFault
  {
    assert [b] == [b] + [];
    ParseStep(p, b, []);
  }

  /** Inside a subnegotiation any payload is collected unescaped. */
  lemma {:induction false} PayloadRoundTrip(cs: seq<byte>, payload: seq<byte>, rest: seq<byte>)
    ensures Parse(Subnegotiation(cs), DoubleIac(payload) + rest) == Parse(Subnegotiation(cs + payload), rest)
    decreases |payload|
  {
    hide Parse;
    if payload == [] {
      assert DoubleIac(payload) + rest == rest;
      assert cs + payload == cs;
    } else {
      var b, d := payload[0], DoubleIac(payload[1..]) + rest;
      PayloadRoundTrip(cs + [b], payload[1..], rest);
      assert cs + [b] + payload[1..] == cs + payload;
      if b == IAC {
        assert DoubleIac(payload) + rest == [IAC] + ([IAC] + d);
        ParseStep(Subnegotiation(cs), IAC, [IAC] + d);
        ParseStep(SubnegotiationEscaped(cs), IAC, d);
      } else {
        assert DoubleIac(payload) + rest == [b] + d;
        ParseStep(Subnegotiation(cs), b, d);
      }
    }
  }

  lemma NegotiationRoundTrip(p: ParseState, about: byte, payload: seq<byte>)
    requires Between(p) && about != IAC
    ensures Parse(p, PrintNegotiation(about, payload))
         == Parsed(Data, Owed(p) + [Negotiate(about, payload)], NoFault)
  {
    hide Parse, DoubleIac;
    ParseNothing();
    var tail := DoubleIac(payload) + [IAC, SE];
    assert PrintNegotiation(about, payload) == [IAC] + ([SB] + ([about] + tail));
    ParseStep(p, IAC, [SB] + ([about] + tail));
    ParseStep(Escaped, SB, [about] + tail);
    assert [] + [about] == [about];
    ParseStep(Subnegotiation([]), about, tail);
    PayloadRoundTrip([about], payload, [IAC, SE]);
    assert [IAC, SE] == [IAC] + [SE];
    ParseStep(Subnegotiation([about] + payload), IAC, [SE]);
    assert [SE] == [SE] + [];
    ParseStep(SubnegotiationEscaped([about] + payload), SE, []);
    assert ([about] + payload)[1..] == payload;
  }

  // ---------------------------------------------------------------- whole printed streams

  /** What one side may print, in the order it prints it. */
  datatype Item =
    | WriteData(data: seq<byte>)
    | Ask(code: byte, option: byte)
    | Plain(code: byte)
    | Request(about: byte, payload: seq<byte>)

  predicate Printable(items: seq<Item>) {
    forall i :: 0 <= i < |items| ==>
      && (items[i].Ask? ==> IsNegotiationCommand(items[i].code))
      && (items[i].Plain? ==> IsPlainCommand(items[i].code))
      && (items[i].Request? ==> items[i].about != IAC)
  }

  function PrintItem(item: Item): seq<byte> {
    match item
    case WriteData(d) => PrintData(d)
    case Ask(c, o) => PrintCommand(c, o)
    case Plain(c) => [IAC, c]
    case Request(a, d) => PrintNegotiation(a, d)
  }

  function Print(items: seq<Item>): seq<byte> {
    if items == [] then [] else PrintItem(items[0]) + Print(items[1..])
  }

  function Meant(item: Item): seq<Event> {
    match item
    case WriteData(d) => Singles(d)
    case Ask(c, o) => [CommandReceived(c, Some(o))]
    case Plain(c) => [CommandReceived(c, None)]
    case Request(a, d) => [Negotiate(a, d)]
  }

  function Intended(items: seq<Item>): seq<Event> {
    if items == [] then [] else Meant(items[0]) + Intended(items[1..])
  }

  /** The guard on CR that a caller can check: `pending` says that the byte before was a CR that
      no other CR pairs with; the next data byte may then be neither NUL nor LF, and the stream
      may not end there. A command or subnegotiation after it is harmless. */
  predicate CrSafe(pending: bool, items: seq<Item>)
    decreases |items|, if items == [] || !items[0].WriteData? then 0 else |items[0].data|
  {
    if items == [] then !pending
    else if !items[0].WriteData? then CrSafe(false, items[1..])
    else if items[0].data == [] then CrSafe(pending, items[1..])
    else
      var b, rest := items[0].data[0], [WriteData(items[0].data[1..])] + items[1..];
      if pending then b != NUL && b != LF && CrSafe(false, rest) else CrSafe(b == CR, rest)
  }

  lemma PeelByte(items: seq<Item>) returns (b: byte, rest: seq<Item>)
    requires items != [] && items[0].WriteData? && items[0].data != []
    ensures b == items[0].data[0] && rest == [WriteData(items[0].data[1..])] + items[1..]
    ensures Print(items) == PrintData([b]) + Print(rest)
    ensures Intended(items) == [AppData([b])] + Intended(rest)
    ensures Printable(items) ==> Printable(rest)
  {
    var tail := items[0].data[1..];
    b, rest := items[0].data[0], [WriteData(tail)] + items[1..];
    assert items[0].data == [b] + tail && rest[1..] == items[1..];
    assert PrintData([b] + tail) == PrintData([b]) + PrintData(tail) by {
      PrintDataStep(b, tail);
      PrintDataStep(b, []);
      assert [b] + [] == [b];
    }
    Assoc(PrintData([b]), PrintData(tail), Print(items[1..]));
    SinglesAppend([b], tail);
    assert Singles([b]) == [AppData([b])];
    Assoc([AppData([b])], Singles(tail), Intended(items[1..]));
  }

  lemma Assoc<T>(x: seq<T>, y: seq<T>, z: seq<T>)
    ensures (x + y) + z == x + (y + z)
  {
  }

  /** One printed data byte, from a point between items. */
  lemma ByteRoundTrip(p: ParseState, b: byte)
    requires Between(p)
    ensures var r := Parse(p, PrintData([b]));
            r.fault.NoFault? && Between(r.state)
            && (p.Newline? && b == NUL ==> r == Parsed(Data, [AppData([CR])], NoFault))
            && (p.Newline? && b == LF ==> r == Parsed(Data, [AppData([CR]), AppData([CR]), AppData([LF])], NoFault))
            && (p.Newline? && b != NUL && b != LF ==> r == Parsed(Data, [AppData([CR]), AppData([b])], NoFault))
            && (p.Data? && b == CR ==> r == Parsed(Newline, [], NoFault))
            && (p.Data? && b != CR ==> r == Parsed(Data, [AppData([b])], NoFault))
  {
    PrintDataStep(b, []);
    assert [b] + [] == [b];
    if b == IAC {
      assert PrintData([b]) == [IAC] + ([IAC] + []);
      ParseStep(p, IAC, [IAC] + []);
      ParseStep(Escaped, IAC, []);
    } else if b == LF {
      assert PrintData([b]) == [CR] + ([LF] + []);
      ParseStep(p, CR, [LF] + []);
      ParseStep(Newline, LF, []);
      ParseStep(Data, LF, []);
    } else {
      assert PrintData([b]) == [b] + [];
      ParseStep(p, b, []);
    }
  }

  /** After a NUL was swallowed the streams can never meet again. */
  lemma {:induction false} NulNeverRecovered(items: seq<Item>)
    requires Printable(items)
    ensures Parse(Data, Print(items)).tokens != [AppData([NUL])] + Intended(items)
    decreases |items|, if items == [] || !items[0].WriteData? then 0 else |items[0].data|
  {
    if items == [] {
    } else if !items[0].WriteData? {
      ItemRoundTrip(Data, items[0]);
      ParseAppend(Data, PrintItem(items[0]), Print(items[1..]));
      assert Parse(Data, Print(items)).tokens[0] == Meant(items[0])[0];
    } else if items[0].data == [] {
      assert Print(items) == Print(items[1..]) && Intended(items) == Intended(items[1..]);
      NulNeverRecovered(items[1..]);
    } else {
      var b, rest := PeelByte(items);
      ByteRoundTrip(Data, b);
      ParseAppend(Data, PrintData([b]), Print(rest));
      if b == NUL {
        NulNeverRecovered(rest);
        assert Parse(Data, Print(items)).tokens[1..] == Parse(Data, Print(rest)).tokens;
        assert ([AppData([NUL])] + Intended(items))[1..] == Intended(items);
      } else if b == CR {
        PendingCrComesFirst(rest);
        assert Parse(Data, Print(items)).tokens == Parse(Newline, Print(rest)).tokens;
      } else {
        assert Parse(Data, Print(items)).tokens[0] == AppData([b]);
      }
    }
  }

  lemma {:induction false} PendingCrComesFirst(items: seq<Item>)
    requires Printable(items)
    ensures var t := Parse(Newline, Print(items)).tokens; t == [] || t[0] == AppData([CR])
    decreases |items|, if items == [] || !items[0].WriteData? then 0 else |items[0].data|
  {
    if items == [] {
    } else if !items[0].WriteData? {
      ItemRoundTrip(Newline, items[0]);
      ParseAppend(Newline, PrintItem(items[0]), Print(items[1..]));
    } else if items[0].data == [] {
      assert Print(items) == Print(items[1..]);
      PendingCrComesFirst(items[1..]);
    } else {
      var b, rest := PeelByte(items);
      ByteRoundTrip(Newline, b);
      ParseAppend(Newline, PrintData([b]), Print(rest));
    }
  }

  lemma ItemRoundTrip(p: ParseState, item: Item)
    requires Between(p) && Printable([item]) && !item.WriteData?
    ensures Parse(p, PrintItem(item)) == Parsed(Data, Owed(p) + Meant(item), NoFault)
  {
    assert [item][0] == item;
    match item
    case Ask(c, o) => CommandRoundTrip(p, c, o);
    case Plain(c) => PlainCommandRoundTrip(p, c);
    case Request(a, d) => NegotiationRoundTrip(p, a, d);
  }

  ghost predicate ComesBackIffSafe(p: ParseState, items: seq<Item>) {
    var r := Parse(p, Print(items));
    && r.fault.NoFault?
    && Between(r.state)
    && (r.tokens == Owed(p) + Intended(items) <==> CrSafe(p.Newline?, items))
    && (CrSafe(p.Newline?, items) ==> r.state == Data)
  }

  /** Printing then parsing gives back exactly what was printed, up to merging adjacent data, if
      and only if the CRs in the data are safe; and no printed stream ever makes the parser raise. */
  lemma {:induction false} StreamRoundTrip(p: ParseState, items: seq<Item>)
    requires Between(p) && Printable(items)
    ensures ComesBackIffSafe(p, items)
    decreases |items|, if items == [] || !items[0].WriteData? then 0 else |items[0].data|
  {
    if items == [] {
    } else if !items[0].WriteData? {
      StreamRoundTrip(Data, items[1..]);
      ItemFirst(p, items);
    } else if items[0].data == [] {
      assert Print(items) == Print(items[1..]) && Intended(items) == Intended(items[1..]);
      StreamRoundTrip(p, items[1..]);
    } else {
      var b, rest := PeelByte(items);
      ByteRoundTrip(p, b);
      StreamRoundTrip(Parse(p, PrintData([b])).state, rest);
      ByteFirst(p, items, b, rest);
    }
  }

  lemma ItemFirst(p: ParseState, items: seq<Item>)
    requires Between(p) && Printable(items) && items != [] && !items[0].WriteData?
    requires ComesBackIffSafe(Data, items[1..])
    ensures ComesBackIffSafe(p, items)
  {
    ItemRoundTrip(p, items[0]);
    ParseAppend(p, PrintItem(items[0]), Print(items[1..]));
    var t, meant := Parse(Data, Print(items[1..])).tokens, Intended(items[1..]);
    Assoc(Owed(p), Meant(items[0]), meant);
    SamePrefix(Owed(p) + Meant(items[0]), t, meant);
  }

  lemma ByteFirst(p: ParseState, items: seq<Item>, b: byte, rest: seq<Item>)
    requires Between(p) && Printable(rest) && items != [] && items[0].WriteData? && items[0].data != []
    requires b == items[0].data[0] && rest == [WriteData(items[0].data[1..])] + items[1..]
    requires Print(items) == PrintData([b]) + Print(rest) && Intended(items) == [AppData([b])] + Intended(rest)
    requires var q := Parse(p, PrintData([b])).state; ComesBackIffSafe(q, rest)
    ensures ComesBackIffSafe(p, items)
  {
    ByteRoundTrip(p, b);
    var q := Parse(p, PrintData([b]));
    var s := Parse(q.state, Print(rest));
    assert Parse(p, Print(items)) == Prepend(q.tokens, s) by {
      ParseAppend(p, PrintData([b]), Print(rest));
    }
    ByteThenRest(p, b, s.tokens, Intended(rest));
    if p.Newline? && b == NUL {
      NulNeverRecovered(rest);
    }
  }

  /** One data byte `b` from `p`, followed by tokens `t` where `meant` was intended. */
  lemma ByteThenRest(p: ParseState, b: byte, t: seq<Event>, meant: seq<Event>)
    requires Between(p)
    ensures var q := Parse(p, PrintData([b]));
            q.tokens + t == Owed(p) + ([AppData([b])] + meant)
            <==> (if p.Newline? && b == LF then false
                  else if p.Newline? && b == NUL then t == [AppData([NUL])] + meant
                  else t == Owed(q.state) + meant)
  {
    ByteRoundTrip(p, b);
    var q := Parse(p, PrintData([b]));
    if p.Newline? && b == LF {
      assert (q.tokens + t)[1] == AppData([CR]);
      assert (Owed(p) + ([AppData([b])] + meant))[1] == AppData([LF]);
    } else if p.Newline? && b == NUL {
      SamePrefix(q.tokens, t, [AppData([NUL])] + meant);
    } else {
      assert Owed(p) + ([AppData([b])] + meant) == q.tokens + (Owed(q.state) + meant);
      SamePrefix(q.tokens, t, Owed(q.state) + meant);
    }
  }

  lemma SamePrefix<T>(head: seq<T>, x: seq<T>, y: seq<T>)
    ensures head + x == head + y <==> x == y
  {
    assert (head + x)[|head|..] == x;
    assert (head + y)[|head|..] == y;
  }

  /** Data without CR bytes is always safe. */
  lemma {:induction false} NoCrIsSafe(items: seq<Item>)
    requires forall i :: 0 <= i < |items| && items[i].WriteData? ==> CR !in items[i].data
    ensures CrSafe(false, items)
    decreases |items|, if items == [] || !items[0].WriteData? then 0 else |items[0].data|
  {
    if items != [] {
      if items[0].WriteData? && items[0].data != [] {
        NoCrIsSafe([WriteData(items[0].data[1..])] + items[1..]);
      } else {
        NoCrIsSafe(items[1..]);
      }
    }
  }

  // ---------------------------------------------------------------- the option byte IAC

  /** The octets of RFC 854: newlines are CR LF, a lone CR is CR NUL, IAC is doubled, and a
      subnegotiation stands between IAC SB and IAC SE. */
  lemma Octets(about: byte, payload: seq<byte>)
    ensures PrintData([10]) == [13, 10] && PrintData([255]) == [255, 255]
    ensures Parse(Data, [13, 10]).tokens == [AppData([10])] && Parse(Data, [13, 0]).tokens == [AppData([13])]
    ensures PrintNegotiation(about, payload) == [255, 250, about] + DoubleIac(payload) + [255, 240]
  {
    PrintDataStep(LF, []);
    PrintDataStep(IAC, []);
    assert [LF] + [] == [LF] && [IAC] + [] == [IAC];
    assert [13, 10] == [CR] + ([LF] + []) && [13, 0] == [CR] + ([NUL] + []);
    ParseStep(Data, CR, [LF] + []);
    ParseStep(Newline, LF, []);
    ParseStep(Data, CR, [NUL] + []);
    ParseStep(Newline, NUL, []);
  }

  /** Once a subnegotiation has collected `cs`, whatever is delivered next starts with `cs`. */
  lemma {:induction false} CollectedStays(p: ParseState, data: seq<byte>)
    requires (p.Subnegotiation? || p.SubnegotiationEscaped?) && p.commands != []
    ensures var t := Parse(p, data).tokens;
            t == [] || (t[0].Negotiate? && p.commands <= [t[0].about] + t[0].payload)
    decreases |data|
  {
    if data != [] {
      var a := React(p, data[0]);
      if a.Shift? {
        CollectedStays(a.next, data[1..]);
      }
    }
  }

  function Iacs(n: nat): (r: seq<byte>)
    ensures |r| == n && forall i :: 0 <= i < n ==> r[i] == IAC
  {
    seq(n, _ => IAC)
  }

  lemma {:induction false} IacAboutIsLost(n: nat, rest: seq<byte>)
    ensures Parse(SubnegotiationEscaped(Iacs(n)), DoubleIac(rest) + [IAC, SE]).tokens
         != [Negotiate(IAC, Iacs(n) + rest)]
    decreases |rest|
  {
    var p := SubnegotiationEscaped(Iacs(n));
    var more := Subnegotiation(Iacs(n) + [IAC]);
    assert Iacs(n) + [IAC] == Iacs(n + 1);
    if rest == [] {
      assert DoubleIac(rest) + [IAC, SE] == [IAC] + ([SE] + []);
      ParseStep(p, IAC, [SE] + []);
      ParseStep(more, SE, []);
    } else {
      var y, d := rest[0], DoubleIac(rest[1..]) + [IAC, SE];
      if y == IAC {
        assert DoubleIac(rest) + [IAC, SE] == [IAC] + ([IAC] + d);
        ParseStep(p, IAC, [IAC] + d);
        ParseStep(more, IAC, d);
        IacAboutIsLost(n + 1, rest[1..]);
        assert Iacs(n) + rest == Iacs(n + 1) + rest[1..];
      } else {
        assert DoubleIac(rest) + [IAC, SE] == [y] + d;
        ParseStep(p, y, d);
        if y != SE {
          CollectedStays(Subnegotiation(Iacs(n) + [y]), d);
          assert (Iacs(n) + [y])[n] == y;
          assert ([IAC] + (Iacs(n) + rest))[n] == IAC;
        } else if n > 0 {
          assert Parse(p, [y] + d).tokens[0] == Negotiate(IAC, Iacs(n)[1..]);
          assert |Iacs(n)[1..]| < |Iacs(n) + rest|;
        }
      }
    }
  }

  /** `requestNegotiation` escapes its payload but not `about`: the request survives the wire
      exactly when `about` is not IAC, whatever the payload. */
  lemma RequestSurvivesIff(about: byte, payload: seq<byte>)
    ensures Parse(Data, PrintNegotiation(about, payload)).tokens == [Negotiate(about, payload)] <==> about != IAC
  {
    if about != IAC {
      NegotiationRoundTrip(Data, about, payload);
    } else {
      var tail := DoubleIac(payload) + [IAC, SE];
      assert PrintNegotiation(about, payload) == [IAC] + ([SB] + ([IAC] + tail));
      ParseStep(Data, IAC, [SB] + ([IAC] + tail));
      ParseStep(Escaped, SB, [IAC] + tail);
      ParseStep(Subnegotiation([]), IAC, tail);
      assert Iacs(0) == [];
      IacAboutIsLost(0, payload);
      assert Iacs(0) + payload == payload;
    }
  }
}
