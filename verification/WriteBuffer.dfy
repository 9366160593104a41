/** The write side of a `FileDescriptor`: a byte queue with partial sends, a producer that is paused
    and resumed, and two ways of closing. What a producer does when told is a later call. */
module WriteBuffer {
  import opened Prelude

  /** What `writeSomeData` comes to: it takes that many of the bytes offered, if there are as many,
      or it fails. */
  datatype Take = Took(atMost: nat) | Failed

  /** What `doWrite` returns. */
  datatype Result = Going | ConnectionDone | ConnectionFailed

  datatype Verb = Pause | Resume | Stop

  datatype Command = Command(producer: nat, verb: Verb)

  function Join(chunks: seq<seq<byte>>): seq<byte> { if chunks == [] then [] else chunks[0] + Join(chunks[1..]) }

  lemma {:induction false} JoinAppend(a: seq<seq<byte>>, b: seq<seq<byte>>)
    ensures Join(a + b) == Join(a) + Join(b)
  {
    if a == [] {
      assert a + b == b;
    } else {
      assert (a + b)[1..] == a[1..] + b;
      JoinAppend(a[1..], b);
    }
  }

  lemma JoinOne(a: seq<seq<byte>>, c: seq<byte>)
    ensures Join(a + [c]) == Join(a) + c
  {
    JoinAppend(a, [c]);
    assert Join([c]) == c + Join([]);
  }

  const SEND_LIMIT := 128 * 1024

  function Min(a: nat, b: nat): nat { if a < b then a else b }

  class FileDescriptor {
    const bufferSize: nat
    var connected: bool
    var disconnected: bool
    var disconnecting: bool
    var writeDisconnecting: bool
    var writeDisconnected: bool
    var dataBuffer: seq<byte>
    var offset: nat
    var tempDataBuffer: seq<seq<byte>>
    var tempDataLen: nat
    var reading: bool
    var writing: bool                    // registered with the reactor for write events
    var producer: Option<nat>
    var streamingProducer: bool
    var producerPaused: bool
    ghost var accepted: seq<byte>        // everything that `write` took
    ghost var sent: seq<byte>            // everything that `writeSomeData` took
    ghost var commands: seq<Command>     // what producers were told
    ghost var registeredAt: nat          // how many commands there were when it was registered
    ghost var reported: bool             // doWrite has returned CONNECTION_DONE

    /** The queue. */
    ghost function Unsent(): seq<byte>
      reads this
      requires offset <= |dataBuffer|
    {
      dataBuffer[offset..] + Join(tempDataBuffer)
    }

    /** Nothing is lost, repeated or reordered. */
    ghost predicate Conserves()
      reads this
    {
      && offset <= |dataBuffer| && tempDataLen == |Join(tempDataBuffer)|
      && accepted == sent + Unsent()
      && (Unsent() == [] ==> dataBuffer == [] && offset == 0)
    }

    /** The last thing the registered producer was told, since it was registered. */
    ghost predicate ToldToPause()
      reads this
    {
      producer.Some? && |commands| > registeredAt && commands[|commands| - 1] == Command(producer.value, Pause)
    }

    /** A half-close was requested and has not come about, and neither has a close. */
    ghost predicate HalfClosePending()
      reads this
    {
      !disconnected && writeDisconnecting && !writeDisconnected && !disconnecting
    }

    /** It has no write event coming that could bring it about. */
    ghost predicate Stranded()
      reads this
    {
      HalfClosePending() && !writing
    }

    /** Nothing gets stuck: bytes, a close request and a paused producer all have a write event coming. */
    ghost predicate Flows()
      reads this
      requires offset <= |dataBuffer|
    {
      && (connected && Unsent() != [] ==> writing)
      && (connected && disconnecting && producer == None && !reported ==> writing)
      && (ToldToPause() ==> streamingProducer && producerPaused && Unsent() != [])
    }

    ghost predicate Valid()
      reads this
    {
      && Conserves() && Flows()
      && (connected ==> !disconnected)
      && (writeDisconnected || (!connected && !disconnected) ==> Unsent() == [])
      && (!connected && !disconnected ==> !disconnecting)
      && (disconnected ==> producer == None)
      && (reported ==> disconnecting) && registeredAt <= |commands|
    }

    constructor (size: nat)
      ensures Valid() && !connected && accepted == [] && sent == [] && producer == None && !producerPaused
      ensures !disconnected && !disconnecting && !writeDisconnecting && !writeDisconnected && !reported
      ensures bufferSize == size && commands == []
    {
      bufferSize := size;
      connected, disconnected, disconnecting := false, false, false;
      writeDisconnecting, writeDisconnected := false, false;
      dataBuffer, offset, tempDataBuffer, tempDataLen := [], 0, [], 0;
      reading, writing, producer, streamingProducer, producerPaused := false, false, None, false, false;
      accepted, sent, commands, registeredAt, reported := [], [], [], 0, false;
    }

    /** A subclass has connected it. */
    method Connected()
      requires Valid() && !disconnected
      modifies this`connected, this`reading
      ensures Valid() && connected && Unsent() == old(Unsent()) && Stranded() == old(Stranded())
    {
      connected, reading := true, true;
    }

    // ---------------------------------------------------------------------------- producers

    method Tell(verb: Verb)
      requires producer.Some?
      modifies this`commands
      ensures commands == old(commands) + [Command(producer.value, verb)]
    {
      commands := commands + [Command(producer.value, verb)];
    }

    /** Whether it succeeded, rather than raising RuntimeError. */
    method RegisterProducer(p: nat, streaming: bool) returns (ok: bool)
      requires Valid()
      modifies this`producer, this`streamingProducer, this`commands, this`registeredAt
      ensures Valid() && ok == (old(producer) == None)
      ensures producer == if ok && !disconnected then Some(p) else old(producer)
      ensures ok && !disconnected ==> streamingProducer == streaming && !ToldToPause()
      ensures commands == old(commands) +
                if !ok then []
                else if disconnected then [Command(p, Stop)]
                else if streaming then [] else [Command(p, Resume)]
      ensures registeredAt == if ok && !disconnected then |old(commands)| else old(registeredAt)
      ensures Stranded() == old(Stranded())
    {
      hide Join;
      if producer.Some? {
        return false;
      }
      if disconnected {
        commands := commands + [Command(p, Stop)];
      } else {
        producer, streamingProducer, registeredAt := Some(p), streaming, |commands|;
        if !streaming {
          Tell(Resume);
        }
      }
      return true;
    }

    method UnregisterProducer()
      requires Valid()
      modifies this`producer, this`writing
      ensures Valid() && producer == None && writing == (old(writing) || (connected && disconnecting))
      ensures Stranded() == old(Stranded())
    {
      producer := None;
      if connected && disconnecting {
        writing := true;
      }
    }

    /** `_isSendBufferFull`. */
    predicate IsSendBufferFull()
      reads this
    {
      |dataBuffer| + tempDataLen > bufferSize
    }

    /** Bytes that were sent from the front of `dataBuffer` count as well. So it is not right about
        what is in the queue exactly when only they take the size over the limit. */
    lemma SentBytesCountAsFull()
      requires Conserves()
      ensures IsSendBufferFull() <==> |Unsent()| + offset > bufferSize
      ensures (IsSendBufferFull() <==> |Unsent()| > bufferSize) <==> !(|Unsent()| <= bufferSize < |Unsent()| + offset)
    {
    }

    ghost function PauseIfFull(): seq<Command>
      reads this
    {
      if producer.Some? && streamingProducer && IsSendBufferFull() then [Command(producer.value, Pause)] else []
    }

    /** `_maybePauseProducer`. */
    method MaybePauseProducer()
      requires offset <= |dataBuffer|
      modifies this`producerPaused, this`commands
      ensures commands == old(commands) + PauseIfFull()
      ensures producerPaused == (old(producerPaused) || PauseIfFull() != [])
    {
      if producer.Some? && streamingProducer {
        if IsSendBufferFull() {
          producerPaused := true;
          Tell(Pause);
        }
      }
    }

    // ------------------------------------------------------------------------------ writing

    /** How `write` and `writeSequence` end. */
    method StartFlushing()
      requires Conserves() && connected && !disconnected && !writeDisconnected && (reported ==> disconnecting)
      requires (ToldToPause() ==> streamingProducer && producerPaused && Unsent() != []) && registeredAt <= |commands|
      modifies this`writing, this`producerPaused, this`commands
      ensures Valid() && writing && commands == old(commands) + PauseIfFull()
      ensures producerPaused == (old(producerPaused) || PauseIfFull() != [])
    {
      hide Join;
      MaybePauseProducer();
      writing := true;
    }

    method Write(data: seq<byte>)
      requires Valid()
      modifies this`tempDataBuffer, this`tempDataLen, this`accepted, this`writing, this`producerPaused,
               this`commands
      ensures Valid() && sent == old(sent)
      ensures var takes := connected && !writeDisconnected;
              accepted == old(accepted) + (if takes then data else [])
              && Unsent() == old(Unsent()) + if takes then data else []
      ensures var pause := if connected && !writeDisconnected && data != [] then PauseIfFull() else [];
              commands == old(commands) + pause && producerPaused == (old(producerPaused) || pause != [])
      ensures Stranded() == (old(Stranded()) && (data == [] || !connected))
    {
      JoinOne([], data);
      assert [] + [data] == [data] && Join([data]) == data;
      hide Join;
      if !connected || writeDisconnected {
        return;
      }
      if data != [] {
        AddChunks([data], data, |data|);
        StartFlushing();
      }
    }

    method WriteSequence(iovec: seq<seq<byte>>)
      requires Valid()
      modifies this`tempDataBuffer, this`tempDataLen, this`accepted, this`writing, this`producerPaused,
               this`commands
      ensures Valid() && sent == old(sent)
      ensures var takes := connected && !writeDisconnected;
              accepted == old(accepted) + (if takes then Join(iovec) else [])
              && Unsent() == old(Unsent()) + if takes then Join(iovec) else []
      ensures var pause := if connected && !writeDisconnected && iovec != [] then PauseIfFull() else [];
              commands == old(commands) + pause && producerPaused == (old(producerPaused) || pause != [])
      ensures Stranded() == (old(Stranded()) && (iovec == [] || !connected))
    {
      assert Join([]) == [];
      hide Join;
      if !connected || iovec == [] || writeDisconnected {
        return;
      }
      var added := TotalLength(iovec);
      AddChunks(iovec, Join(iovec), added);
      StartFlushing();
    }

    /** The chunks go to the end of the queue. */
    method AddChunks(chunks: seq<seq<byte>>, ghost data: seq<byte>, added: nat)
      requires Conserves() && data == Join(chunks) && added == |data|
      modifies this`tempDataBuffer, this`tempDataLen, this`accepted
      ensures Conserves() && Unsent() == old(Unsent()) + data && accepted == old(accepted) + data
    {
      hide Join;
      JoinAppend(tempDataBuffer, chunks);
      assert dataBuffer[offset..] + (Join(tempDataBuffer) + data) == Unsent() + data;
      assert sent + (Unsent() + data) == accepted + data;
      tempDataBuffer := tempDataBuffer + chunks;
      tempDataLen := tempDataLen + added;
      accepted := accepted + data;
    }

    static method TotalLength(iovec: seq<seq<byte>>) returns (n: nat)
      ensures n == |Join(iovec)|
    {
      n := 0;
      var i := 0;
      assert Join(iovec[..0]) == [];
      while i < |iovec|
        invariant 0 <= i <= |iovec| && n == |Join(iovec[..i])|
      {
        JoinOne(iovec[..i], iovec[i]);
        assert iovec[..i + 1] == iovec[..i] + [iovec[i]];
        n := n + |iovec[i]|;
        i := i + 1;
      }
      assert iovec[..i] == iovec;
    }

    /** What `doWrite` offers to `writeSomeData`: all there is, or a buffer that is long already. */
    ghost function Offered(): (r: seq<byte>)
      reads this
      requires offset <= |dataBuffer|
    {
      if |dataBuffer| - offset < SEND_LIMIT then Unsent() else dataBuffer[offset..]
    }

    /** How many bytes that were sent before stay in front of them. */
    ghost function Gone(): nat
      reads this
    {
      if |dataBuffer| - offset < SEND_LIMIT then 0 else offset
    }

    ghost function ToResume(): bool
      reads this
    {
      producer.Some? && (!streamingProducer || producerPaused)
    }

    /** `doWrite`: the queue loses what was sent. When that empties it, a producer that waits for
        that is resumed; otherwise a requested close is reported, or a requested half-close done. */
    method DoWrite(take: Take) returns (r: Result)
      requires Valid()
      modifies this`dataBuffer, this`offset, this`tempDataBuffer, this`tempDataLen, this`sent, this`writing,
               this`producerPaused, this`commands, this`reported, this`writeDisconnected
      ensures Valid()
      ensures var n := if take.Failed? then 0 else Min(take.atMost, |old(Offered())|);
              && n <= |old(Unsent())| && sent == old(sent) + old(Unsent())[..n] && Unsent() == old(Unsent())[n..]
              && (Unsent() != [] ==> offset == old(Gone()) + n)
      ensures take.Failed? <==> r == ConnectionFailed
      ensures r == ConnectionDone <==> take.Took? && Unsent() == [] && disconnecting && !old(ToResume())
      ensures r == ConnectionDone ==> sent == accepted
      ensures reported == (old(reported) || r == ConnectionDone)
      ensures var drained := take.Took? && Unsent() == [];
              && writing == (old(writing) && !drained)
              && commands == old(commands) +
                   (if drained && old(ToResume()) then [Command(producer.value, Resume)] else [])
              && writeDisconnected == (old(writeDisconnected) ||
                                       (drained && !old(ToResume()) && !disconnecting && writeDisconnecting))
              && producerPaused == (old(producerPaused) && !(drained && old(ToResume())))
              && (Stranded() <==> old(HalfClosePending()) && if drained then old(ToResume()) else !old(writing))
    {
      hide Join, Offered, Gone;
      Merge();
      assert Valid() && Unsent() == old(Unsent());
      if take.Failed? {
        return ConnectionFailed;
      }
      var rest := |dataBuffer| - offset;
      SendSome(if take.atMost < rest then take.atMost else rest);
      if offset == |dataBuffer| && tempDataLen == 0 {
        r := Drained();
      } else {
        r := Going;
      }
    }

    /** The pieces go into `dataBuffer`, unless enough of it is left. */
    method Merge()
      requires Conserves()
      modifies this`dataBuffer, this`offset, this`tempDataBuffer, this`tempDataLen
      ensures Conserves() && Unsent() == old(Unsent()) && dataBuffer[offset..] == old(Offered())
      ensures offset == old(Gone())
    {
      if |dataBuffer| - offset < SEND_LIMIT {
        dataBuffer := dataBuffer[offset..] + Join(tempDataBuffer);
        offset := 0;
        tempDataBuffer := [];
        tempDataLen := 0;
        assert dataBuffer[0..] == dataBuffer;
      }
    }

    method SendSome(n: nat)
      requires Conserves() && offset + n <= |dataBuffer|
      modifies this`offset, this`sent
      ensures offset == old(offset) + n && n <= |old(Unsent())| && sent == old(sent) + old(Unsent())[..n]
      ensures Unsent() == old(Unsent())[n..] && accepted == sent + Unsent()
    {
      assert Unsent()[..n] == dataBuffer[offset..offset + n];
      assert dataBuffer[offset..][n..] == dataBuffer[offset + n..];
      assert Unsent()[n..] == dataBuffer[offset + n..] + Join(tempDataBuffer);
      assert sent + Unsent() == sent + Unsent()[..n] + Unsent()[n..];
      sent := sent + dataBuffer[offset..offset + n];
      offset := offset + n;
    }

    /** Nothing is left to send. */
    method Drained() returns (r: Result)
      requires offset == |dataBuffer| && tempDataLen == 0 == |Join(tempDataBuffer)| && accepted == sent
      modifies this`dataBuffer, this`offset, this`writing, this`producerPaused, this`commands, this`reported,
               this`writeDisconnected
      ensures dataBuffer == [] && offset == 0 && !writing
      ensures r == if disconnecting && !old(ToResume()) then ConnectionDone else Going
      ensures reported == (old(reported) || r == ConnectionDone)
      ensures producerPaused == (old(producerPaused) && !old(ToResume()))
      ensures commands == old(commands) + if old(ToResume()) then [Command(producer.value, Resume)] else []
      ensures writeDisconnected ==
                (old(writeDisconnected) || (!old(ToResume()) && !disconnecting && writeDisconnecting))
    {
      dataBuffer := [];
      offset := 0;
      writing := false;
      if producer.Some? && (!streamingProducer || producerPaused) {
        producerPaused := false;
        Tell(Resume);
      } else if disconnecting {
        reported := true;
        return ConnectionDone;
      } else if writeDisconnecting {
        writeDisconnected := true;
      }
      return Going;
    }

    // ------------------------------------------------------------------------------ closing

    method ConnectionLost()
      requires Valid()
      modifies this`connected, this`disconnected, this`producer, this`commands, this`reading, this`writing
      ensures Valid() && disconnected && !connected && producer == None && !reading && !writing
      ensures Unsent() == old(Unsent())
      ensures commands == old(commands) + if old(producer).Some? then [Command(old(producer).value, Stop)] else []
      ensures !Stranded()
    {
      hide Join;
      disconnected := true;
      connected := false;
      if producer.Some? {
        Tell(Stop);
        producer := None;
      }
      reading := false;
      writing := false;
      assert Unsent() == old(Unsent());
    }

    /** A descriptor that is half-closed has nothing left to flush, and closes at once. */
    method LoseConnection()
      requires Valid()
      modifies this`connected, this`disconnected, this`producer, this`commands, this`reading, this`writing,
               this`disconnecting
      ensures Valid() && Unsent() == old(Unsent())
      ensures if !old(connected) || old(disconnecting) then disconnecting == old(disconnecting)
                   && connected == old(connected) && writing == old(writing)
                   && producer == old(producer)
              else if old(writeDisconnected) then disconnected && producer == None && sent == accepted
              else connected && disconnecting && writing && !reading && producer == old(producer)
      ensures Stranded() == (old(Stranded()) && !old(connected))
    {
      if connected && !disconnecting {
        if writeDisconnected {
          reading := false;
          writing := false;
          ConnectionLost();
        } else {
          reading := false;
          writing := true;
          disconnecting := true;
          assert Unsent() == old(Unsent());
        }
      }
    }

    method LoseWriteConnection()
      requires Valid()
      modifies this`writeDisconnecting, this`writing
      ensures Valid() && writeDisconnecting && writing && !Stranded()
    {
      writeDisconnecting := true;
      writing := true;
    }

    method StopConsuming()
      requires Valid()
      modifies this
      ensures Valid() && producer == None && accepted == old(accepted) && sent == old(sent)
      ensures old(connected) ==> disconnected || (disconnecting && (writing || reported))
      ensures Stranded() == (old(Stranded()) && !old(connected))
    {
      UnregisterProducer();
      LoseConnection();
    }
  }

  /** Write events as the reactor makes them, while the descriptor is registered for them, each
      taking something. They come to an end with everything sent. What then happens is decided at
      the start: a producer that waits for it is resumed; otherwise a requested close is reported,
      and a requested half-close carried out, exactly if a write event was coming. */
  method WriteEvents(fd: FileDescriptor, atMost: nat -> nat) returns (result: Result)
    requires fd.Valid() && fd.connected && !fd.reported && forall i :: atMost(i) > 0
    modifies fd`dataBuffer, fd`offset, fd`tempDataBuffer, fd`tempDataLen, fd`sent, fd`writing,
             fd`producerPaused, fd`commands, fd`reported, fd`writeDisconnected
    ensures fd.Valid() && !fd.writing && fd.sent == fd.accepted
    ensures Decided(fd, old(fd.commands), old(fd.writeDisconnected), old(fd.writing), old(fd.ToResume()))
    ensures fd.reported == (result == ConnectionDone)
  {
    hide Join;
    result := Going;
    var i: nat := 0;
    while fd.writing
      invariant fd.Valid() && fd.reported == (result == ConnectionDone) && result != ConnectionFailed
      invariant if fd.writing
                then !fd.reported && old(fd.writing)
                     && Untouched(fd, old(fd.commands), old(fd.writeDisconnected), old(fd.ToResume()))
                else Decided(fd, old(fd.commands), old(fd.writeDisconnected), old(fd.writing), old(fd.ToResume()))
      decreases fd.writing, |fd.Unsent()|
    {
      result := fd.DoWrite(Took(atMost(i)));
      i := i + 1;
    }
  }

  ghost predicate Untouched(fd: FileDescriptor, commands: seq<Command>, writeDisconnected: bool, toResume: bool)
    reads fd
  {
    fd.commands == commands && fd.writeDisconnected == writeDisconnected && fd.ToResume() == toResume
  }

  /** What the write events bring about, from what was there before them. */
  ghost predicate Decided(fd: FileDescriptor, commands: seq<Command>, writeDisconnected: bool, writing: bool,
        toResume: bool)
    reads fd
  {
    && (toResume ==> fd.producer.Some?)
    && fd.commands == commands + (if writing && toResume then [Command(fd.producer.value, Resume)] else [])
    && fd.reported == (fd.disconnecting && writing && !toResume)
    && fd.writeDisconnected ==
         (writeDisconnected || (fd.writeDisconnecting && !fd.disconnecting && writing && !toResume))
  }

  /** So a requested close with no producer is reported, once everything is sent. */
  method CloseIsReached(fd: FileDescriptor, atMost: nat -> nat)
    requires fd.Valid() && fd.connected && fd.disconnecting && fd.producer == None && !fd.reported
    requires forall i :: atMost(i) > 0
    modifies fd
    ensures fd.Valid() && fd.sent == fd.accepted == old(fd.accepted) && fd.reported
  {
    hide Join;
    var _ := WriteEvents(fd, atMost);
  }

  /** And a half-close that is pending, with no producer to resume, is carried out by the write events
      exactly if it was not stranded. `Stranded` comes about only where a drain resumes a producer
      (`DoWrite`), and ends only with another write, another request to close or half-close, or the
      loss of the connection. */
  method HalfCloseIsReachedIffNotStranded(fd: FileDescriptor, atMost: nat -> nat)
    requires fd.Valid() && fd.connected && fd.HalfClosePending() && !fd.ToResume() && !fd.reported
    requires forall i :: atMost(i) > 0
    modifies fd
    ensures fd.Valid() && fd.sent == fd.accepted && (fd.writeDisconnected <==> !old(fd.Stranded()))
  {
    hide Join;
    var _ := WriteEvents(fd, atMost);
  }

  /** With a producer to resume it always ends up stranded. */
  method ResumingStrandsHalfClose(fd: FileDescriptor, atMost: nat -> nat)
    requires fd.Valid() && fd.connected && fd.HalfClosePending() && fd.ToResume() && !fd.reported
    requires forall i :: atMost(i) > 0
    modifies fd
    ensures fd.Valid() && fd.sent == fd.accepted && fd.Stranded()
  {
    hide Join;
    var _ := WriteEvents(fd, atMost);
  }

  /** Such a run: a half-close is asked for while a pull producer is registered, and that finishes
      without another write. */
  method HalfCloseIsForgotten() returns (fd: FileDescriptor)
    ensures fd.Valid() && fd.Stranded() && fd.producer == None && fd.Unsent() == []
  {
    hide Join;
    fd := new FileDescriptor(65536);
    fd.Connected();
    var _ := fd.RegisterProducer(1, false);
    fd.LoseWriteConnection();
    ResumingStrandsHalfClose(fd, _ => 1);
    fd.UnregisterProducer();
  }

  /** Nor does a streaming producer that is not paused hold the connection open, as the documentation
      of `loseConnection` says of any producer. */
  method StreamingProducerIsNotAwaited() returns (fd: FileDescriptor, result: Result)
    ensures fd.Valid() && fd.producer == Some(1) && result == ConnectionDone
  {
    hide Join, FileDescriptor.Offered, FileDescriptor.Gone;
    fd := new FileDescriptor(65536);
    fd.Connected();
    var _ := fd.RegisterProducer(1, true);
    fd.LoseConnection();
    result := fd.DoWrite(Took(0));
  }

  /** A streaming producer is paused with two bytes in a queue that is full with more than two. */
  method PausedForSentBytes() returns (fd: FileDescriptor)
    ensures fd.Valid() && fd.bufferSize == 2 == |fd.Unsent()| && fd.commands == [Command(1, Pause)]
  {
    hide Join;
    fd := TwoOfThreeSent();
    var _ := fd.RegisterProducer(1, true);
    ghost var before := fd.Unsent();
    fd.Write([4]);
    assert fd.Unsent() == before + [4];
    fd.SentBytesCountAsFull();
  }

  method TwoOfThreeSent() returns (fd: FileDescriptor)
    ensures fd.Valid() && fresh(fd) && fd.bufferSize == 2 && fd.connected && fd.producer == None && fd.commands == []
    ensures !fd.writeDisconnected && fd.offset == 2 && |fd.Unsent()| == 1
  {
    hide Join;
    fd := new FileDescriptor(2);
    fd.Connected();
    assert fd.Unsent() == [];
    fd.Write([1, 2, 3]);
    assert fd.Unsent() == [1, 2, 3];
    var _ := fd.DoWrite(Took(2));
  }
}
