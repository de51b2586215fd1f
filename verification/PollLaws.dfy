/** What a connection delivers over any number of polls, and how its buffers behave. */
module PollLaws {
  import opened Wrappers
  import opened Bytes
  import opened Cipher
  import opened Packets
  import opened Wire
  import opened WireLaws

  // ---------------------------------------------------------------- the receiving side

  /** The bytes that left the socket between two states of its event list. */
  function Taken(before: seq<ReadEvent>, after: seq<ReadEvent>): seq<byte> {
    var (x, y) := (DataOf(before), DataOf(after));
    if |y| <= |x| then x[..|x| - |y|] else []
  }

  /** A connection that is being polled, with everything it took from its socket and gave to its owner. */
  datatype History = History(conn: Conn, received: seq<byte>, delivered: seq<Packet>, error: Option<ProtocolError>)

  function Observe(h: History, net: Net): History {
    var polled := PollNext(h.conn, net);
    var h' := h.(conn := polled.conn, received := h.received + Taken(net.incoming, polled.net.incoming));
    match polled.item
    case Some(Ready(Ok(p))) => h'.(delivered := h.delivered + [p])
    case Some(Ready(Err(e))) => h'.(error := Some(e))
    case _ => h'
  }

  function ObserveAll(h: History, nets: seq<Net>): History
    decreases |nets|
  {
    if nets == [] then h else ObserveAll(Observe(h, nets[0]), nets[1..])
  }

  function Fresh(conn: Conn): History {
    History(conn, [], [], None)
  }

  /** The history explains itself by the bytes received: parsing them all at once gives what was delivered so far. */
  predicate Explained(start: Conn, h: History) {
    var whole := ParseStream(start.registry, start.cipher.decrypt, start.recv + h.received);
    && h.conn.registry == start.registry
    && (h.conn.disconnected <==> h.error.Some?)
    && match h.error
       case None => whole == Prepend(h.delivered, ParseStream(start.registry, h.conn.cipher.decrypt, h.conn.recv))
       case Some(ConnectionClosed(WriteError)) => h.delivered <= whole.packets
       case Some(ConnectionClosed(_)) => h.delivered == whole.packets && whole.error == None
       case Some(e) => h.delivered == whole.packets && whole.error == Some(e)
  }

  lemma WriteLoopOnly(conn: Conn, net: Net)
    requires !conn.disconnected
    ensures var (n, failed, _) := WriteLoop(conn.send, net.outgoing);
            var polled := PollNext(conn, net);
            if failed then
              && polled.item == Some(Ready(Err(ConnectionClosed(WriteError))))
              && polled.net.incoming == net.incoming
              && polled.conn == conn.(send := conn.send[n..], disconnected := true)
            else
              var flushed := EnsureSpace(conn.(send := conn.send[n..]));
              var (conn', poll, rest) := ReadLoop(flushed, net.incoming);
              && polled.item == Some(poll) && polled.net.incoming == rest
              && polled.conn == conn'.(disconnected := poll.Ready? && poll.item.Err?)
  {
    hide WriteLoop, ReadLoop;
  }

  lemma TakenAll(before: seq<ReadEvent>, after: seq<ReadEvent>, consumed: seq<byte>)
    requires DataOf(before) == consumed + DataOf(after)
    ensures Taken(before, after) == consumed
  {
  }

  /** Bytes that arrive later are parsed from where the parser stands. */
  lemma StreamExtends(start: Conn, h: History, consumed: seq<byte>)
    requires Explained(start, h) && h.error == None
    ensures ParseStream(start.registry, start.cipher.decrypt, start.recv + (h.received + consumed))
         == Prepend(h.delivered, ParseStream(start.registry, h.conn.cipher.decrypt, h.conn.recv + consumed))
  {
    hide ParseStream;
    var registry, first, lane := start.registry, start.cipher.decrypt, h.conn.cipher.decrypt;
    ParseStreamContinues(registry, first, start.recv + h.received, consumed);
    ParseStreamContinues(registry, lane, h.conn.recv, consumed);
    assert start.recv + (h.received + consumed) == start.recv + h.received + consumed;
    var inner := ParseStream(registry, lane, h.conn.recv);
    if inner.error.None? {
      PrependTwice(h.delivered, inner.packets, ParseStream(registry, inner.lane, inner.rest + consumed));
    }
  }

  /** After a read, the outcome of the poll is the next thing in the stream. */
  lemma OutcomeIsNext(conn: Conn, delivered: seq<Packet>, unread: seq<byte>, conn': Conn, poll: Poll)
    requires ReadOutcome(conn, unread, conn', poll)
    ensures var whole := Prepend(delivered, ParseStream(conn.registry, conn.cipher.decrypt, unread));
            match poll
            case Ready(Ok(p)) =>
              whole == Prepend(delivered + [p], ParseStream(conn.registry, conn'.cipher.decrypt, conn'.recv))
            case Ready(Err(ConnectionClosed(_))) => delivered == whole.packets && whole.error == None
            case Ready(Err(e)) => delivered == whole.packets && whole.error == Some(e)
            case Pending => whole == Prepend(delivered, ParseStream(conn.registry, conn'.cipher.decrypt, conn'.recv))
  {
    hide ParseFrame;
    match ParseFrame(conn.registry, conn.cipher.decrypt, unread)
    case NeedMore(_) =>
    case Parsed(p, n, lane) =>
      PrependTwice(delivered, [p], ParseStream(conn.registry, lane, unread[n..]));
    case Failed(e, _, _) => ParseErrorsAreNotClosings(conn.registry, conn.cipher.decrypt, unread);
  }

  lemma ParseErrorsAreNotClosings(registry: Registry, lane: Lane, s: seq<byte>)
    ensures ParseFrame(registry, lane, s).Failed? ==> !ParseFrame(registry, lane, s).error.ConnectionClosed?
  {
  }

  lemma ObserveKeepsExplained(start: Conn, h: History, net: Net)
    requires Explained(start, h)
    ensures Explained(start, Observe(h, net))
  {
    hide WriteLoop, ReadLoop, ParseFrame, ParseStream;
    if h.conn.disconnected {
      assert h.received + Taken(net.incoming, net.incoming) == h.received;
    } else {
      WriteLoopOnly(h.conn, net);
      var (n, failed, _) := WriteLoop(h.conn.send, net.outgoing);
      if failed {
        assert h.received + Taken(net.incoming, net.incoming) == h.received;
      } else {
        var flushed := EnsureSpace(h.conn.(send := h.conn.send[n..]));
        var consumed := ReadLoopParsesOnce(flushed, net.incoming);
        var (conn', poll, rest) := ReadLoop(flushed, net.incoming);
        TakenAll(net.incoming, rest, consumed);
        StreamExtends(start, h, consumed);
        OutcomeIsNext(flushed, h.delivered, h.conn.recv + consumed, conn', poll);
      }
    }
  }

  /** Over any number of polls, whatever the socket does in each. */
  lemma {:induction false} EveryHistoryIsExplained(start: Conn, h: History, nets: seq<Net>)
    requires Explained(start, h)
    ensures Explained(start, ObserveAll(h, nets))
    decreases |nets|
  {
    if nets != [] {
      ObserveKeepsExplained(start, h, nets[0]);
      EveryHistoryIsExplained(start, Observe(h, nets[0]), nets[1..]);
    }
  }

  /** A connection that has nothing more to give until more bytes arrive. */
  predicate Exhausted(h: History) {
    h.error == None && ParseFrame(h.conn.registry, h.conn.cipher.decrypt, h.conn.recv).NeedMore?
  }

  /**
    Chunking independence: two connections that start alike and received the same bytes, cut in any way and read in
    any number of polls, delivered the same packets and stand at the same point of the stream.
   */
  lemma ChunkingDoesNotMatter(conn: Conn, nets: seq<Net>, nets': seq<Net>)
    requires !conn.disconnected
    requires var (h, h') := (ObserveAll(Fresh(conn), nets), ObserveAll(Fresh(conn), nets'));
             h.received == h'.received && Exhausted(h) && Exhausted(h')
    ensures var (h, h') := (ObserveAll(Fresh(conn), nets), ObserveAll(Fresh(conn), nets'));
            && h.delivered == h'.delivered && h.conn.recv == h'.conn.recv
            && h.conn.cipher.decrypt == h'.conn.cipher.decrypt
  {
    hide ParseStream, ObserveAll, ParseFrame;
    StartsExplained(conn);
    EveryHistoryIsExplained(conn, Fresh(conn), nets);
    EveryHistoryIsExplained(conn, Fresh(conn), nets');
    ExhaustedIsWholeStream(conn, ObserveAll(Fresh(conn), nets));
    ExhaustedIsWholeStream(conn, ObserveAll(Fresh(conn), nets'));
  }

  lemma ExhaustedIsWholeStream(start: Conn, h: History)
    requires Explained(start, h) && Exhausted(h)
    ensures ParseStream(start.registry, start.cipher.decrypt, start.recv + h.received)
         == Stream(h.delivered, h.conn.cipher.decrypt, h.conn.recv, None)
  {
    hide ParseFrame;
    assert ParseStream(start.registry, h.conn.cipher.decrypt, h.conn.recv).packets == [];
  }

  lemma StartsExplained(conn: Conn)
    requires !conn.disconnected
    ensures Explained(conn, Fresh(conn))
  {
    hide ParseStream;
    assert conn.recv + [] == conn.recv;
    PrependNone(ParseStream(conn.registry, conn.cipher.decrypt, conn.recv));
  }

  /** A protocol error is a property of the stream too, and nothing is delivered or read after it. */
  lemma ErrorsAreInTheStream(conn: Conn, nets: seq<Net>)
    requires !conn.disconnected
    requires ObserveAll(Fresh(conn), nets).error.Some?
    requires !ObserveAll(Fresh(conn), nets).error.value.ConnectionClosed?
    ensures var h := ObserveAll(Fresh(conn), nets);
            var whole := ParseStream(conn.registry, conn.cipher.decrypt, conn.recv + h.received);
            && h.error == whole.error && h.delivered == whole.packets
            && forall net :: Observe(h, net) == h
  {
    StartsExplained(conn);
    EveryHistoryIsExplained(conn, Fresh(conn), nets);
    var h := ObserveAll(Fresh(conn), nets);
    forall net
      ensures Observe(h, net) == h
    {
      assert h.received + Taken(net.incoming, net.incoming) == h.received;
    }
  }

  // ---------------------------------------------------------------- buffers

  /** The receive index is inside the receive buffer. */
  predicate InBounds(conn: Conn) {
    |conn.recv| <= conn.recvLen
  }

  /** There is room for a header's worth of progress, as there is once a poll has made space. */
  predicate Roomy(conn: Conn) {
    InBounds(conn) && conn.recvLen >= READ_SPACE
  }

  /** When a parse asks for more, the part of the buffer offered to the socket is not empty. */
  lemma SpaceIsOffered(conn: Conn)
    requires Roomy(conn)
    ensures var (tried, poll) := TryParse(conn);
            Roomy(tried) && (poll.Pending? ==> |tried.recv| < tried.recvLen)
  {
    ParsedLength(conn.registry, conn.cipher.decrypt, conn.recv);
  }

  /**
    Every read offers a non-empty slice, so the only way to read zero bytes is that the peer closed the connection:
    an empty delivery among the socket's own events.
   */
  lemma {:induction false} ZeroReadMeansClosed(conn: Conn, incoming: seq<ReadEvent>)
    requires Roomy(conn)
    ensures var (conn', poll, _) := ReadLoop(conn, incoming);
            && Roomy(conn')
            && (poll == Ready(Err(ConnectionClosed(Disconnected))) ==> Data([]) in incoming)
    decreases Weight(incoming)
  {
    hide ParseFrame, TryParse, Weight;
    SpaceIsOffered(conn);
    NoClosingFromParse(conn);
    var (tried, poll) := TryParse(conn);
    if poll.Pending? && incoming != [] {
      var space := tried.recvLen - |tried.recv|;
      var (outcome, rest) := SocketRead(incoming, space);
      if outcome.IoReady? && outcome.value != [] {
        ReadIsProgress(incoming, space);
        ZeroReadMeansClosed(tried.(recv := tried.recv + outcome.value), rest);
        if Data([]) in rest {
          RestHasNoNewEnd(incoming, space);
        }
      }
    }
  }

  /** A socket that only delivers bytes never ends the connection, and nothing stays in it when a poll is pending. */
  lemma {:induction false} HonestSocket(conn: Conn, incoming: seq<ReadEvent>)
    requires Roomy(conn)
    requires forall e :: e in incoming ==> e.Data? && e.bytes != []
    ensures var (_, poll, incoming') := ReadLoop(conn, incoming);
            && (poll.Ready? && poll.item.Err? ==> !poll.item.error.ConnectionClosed?)
            && (poll.Pending? ==> incoming' == [])
    decreases Weight(incoming)
  {
    hide ParseFrame, TryParse, Weight;
    SpaceIsOffered(conn);
    NoClosingFromParse(conn);
    var (tried, poll) := TryParse(conn);
    if poll.Pending? && incoming != [] {
      assert incoming[0] in incoming;
      var space := tried.recvLen - |tried.recv|;
      var (outcome, rest) := SocketRead(incoming, space);
      ReadIsProgress(incoming, space);
      HonestSocket(tried.(recv := tried.recv + outcome.value), rest);
    }
  }

  lemma NoClosingFromParse(conn: Conn)
    ensures TryParse(conn).1.Ready? && TryParse(conn).1.item.Err? ==> !TryParse(conn).1.item.error.ConnectionClosed?
  {
    ParseErrorsAreNotClosings(conn.registry, conn.cipher.decrypt, conn.recv);
  }

  lemma RestHasNoNewEnd(incoming: seq<ReadEvent>, space: nat)
    requires Data([]) in SocketRead(incoming, space).1
    ensures Data([]) in incoming
  {
    var rest := SocketRead(incoming, space).1;
    var i :| 0 <= i < |rest| && rest[i] == Data([]);
    if rest == incoming[1..] {
      assert incoming[i + 1] == Data([]);
    } else {
      assert incoming[i] == Data([]);
    }
  }

  /** The receive index stays inside the buffer over every poll, and the claim about zero reads holds in every poll. */
  lemma PollKeepsBounds(conn: Conn, net: Net)
    requires InBounds(conn)
    ensures var polled := PollNext(conn, net);
            && InBounds(polled.conn)
            && (polled.item == Some(Ready(Err(ConnectionClosed(Disconnected)))) ==> Data([]) in net.incoming)
  {
    hide WriteLoop, ReadLoop;
    if !conn.disconnected {
      WriteLoopOnly(conn, net);
      var (n, failed, _) := WriteLoop(conn.send, net.outgoing);
      ZeroReadMeansClosed(EnsureSpace(conn.(send := conn.send[n..])), net.incoming);
    }
  }

  // ---------------------------------------------------------------- progress

  lemma SocketReadWeight(events: seq<ReadEvent>, space: nat)
    ensures var (outcome, rest) := SocketRead(events, space);
            Weight(rest) + (if outcome.IoReady? then |outcome.value| else 0) <= Weight(events)
  {
    var (outcome, rest) := SocketRead(events, space);
    if outcome.IoReady? && rest != events[1..] {
      assert rest[1..] == events[1..];
    }
  }

  lemma {:induction false} ReadLoopWeight(conn: Conn, incoming: seq<ReadEvent>)
    ensures var (conn', poll, incoming') := ReadLoop(conn, incoming);
            && (poll == Pending || poll.item.Err? || |conn'.recv| + HEADER + Weight(incoming') <= |conn.recv| + Weight(incoming))
    decreases Weight(incoming)
  {
    hide ParseFrame, Weight, SocketRead;
    ParsedLength(conn.registry, conn.cipher.decrypt, conn.recv);
    var (tried, poll) := TryParse(conn);
    if poll.Pending? {
      var space := if tried.recvLen >= |tried.recv| then tried.recvLen - |tried.recv| else 0;
      var (outcome, rest) := SocketRead(incoming, space);
      SocketReadWeight(incoming, space);
      if outcome.IoReady? && outcome.value != [] {
        ReadIsProgress(incoming, space);
        ReadLoopWeight(tried.(recv := tried.recv + outcome.value), rest);
      }
    }
  }

  /** Every delivered packet uses up bytes: a connection cannot deliver packets for ever. */
  lemma DeliveryIsProgress(conn: Conn, net: Net)
    ensures var polled := PollNext(conn, net);
            polled.item.Some? && polled.item.value.Ready? && polled.item.value.item.Ok? ==>
              |polled.conn.recv| + Weight(polled.net.incoming) < |conn.recv| + Weight(net.incoming)
  {
    hide ReadLoop, WriteLoop, Weight;
    if !conn.disconnected {
      WriteLoopOnly(conn, net);
      var (n, failed, _) := WriteLoop(conn.send, net.outgoing);
      ReadLoopWeight(EnsureSpace(conn.(send := conn.send[n..])), net.incoming);
    }
  }

  // ---------------------------------------------------------------- the sending side

  /** What an owner can do with the sending half of a connection. */
  datatype SendOp = Queue(p: Packet) | Flush(net: Net)

  /** A sender with the frames of all packets it queued and all bytes its socket took. */
  datatype Sender = Sender(conn: Conn, framed: seq<byte>, accepted: seq<byte>)

  function Step(s: Sender, op: SendOp): Sender
    requires op.Queue? ==> IsPacket(op.p)
  {
    match op
    case Queue(p) =>
      var (conn', failure) := SendPacket(s.conn, p);
      var frame := if failure.Some? then [] else Frame(s.conn.cipher.encrypt, p).value.0;
      Sender(conn', s.framed + frame, s.accepted)
    case Flush(net) =>
      var polled := PollNext(s.conn, net);
      Sender(polled.conn, s.framed, s.accepted + polled.accepted)
  }

  predicate Conserved(s: Sender) {
    s.accepted + s.conn.send == s.framed
  }

  /** A poll divides the send buffer into what the socket took and what stays. */
  lemma PollSplitsSend(conn: Conn, net: Net)
    ensures PollNext(conn, net).accepted + PollNext(conn, net).conn.send == conn.send
  {
    hide ReadLoop, WriteLoop;
    if conn.disconnected {
      assert [] + conn.send == conn.send;
    } else {
      WriteLoopOnly(conn, net);
      var (n, failed, _) := WriteLoop(conn.send, net.outgoing);
      SendSurvivesReading(EnsureSpace(conn.(send := conn.send[n..])), net.incoming);
      assert conn.send == conn.send[..n] + conn.send[n..];
    }
  }

  /** Bytes taken by the socket, then bytes still buffered: always the frames of the queued packets, in order. */
  lemma StepConserves(s: Sender, op: SendOp)
    requires Conserved(s) && (op.Queue? ==> IsPacket(op.p))
    ensures Conserved(Step(s, op))
    ensures op.Queue? && SendPacket(s.conn, op.p).1.Some? ==> Step(s, op).conn == s.conn
  {
    hide PollNext;
    match op
    case Queue(p) =>
      assert Step(s, op).accepted + Step(s, op).conn.send == s.framed + (Step(s, op).framed[|s.framed|..]);
    case Flush(net) =>
      PollSplitsSend(s.conn, net);
      var polled := PollNext(s.conn, net);
      assert s.accepted + polled.accepted + polled.conn.send == s.accepted + s.conn.send;
  }

  function StepAll(s: Sender, ops: seq<SendOp>): Sender
    requires forall op :: op in ops ==> (op.Queue? ==> IsPacket(op.p))
    decreases |ops|
  {
    if ops == [] then s else StepAll(Step(s, ops[0]), ops[1..])
  }

  /** Over any number of sends and polls. */
  lemma {:induction false} SendingConserves(s: Sender, ops: seq<SendOp>)
    requires Conserved(s) && forall op :: op in ops ==> (op.Queue? ==> IsPacket(op.p))
    ensures Conserved(StepAll(s, ops))
    decreases |ops|
  {
    hide Step;
    if ops != [] {
      StepConserves(s, ops[0]);
      SendingConserves(Step(s, ops[0]), ops[1..]);
    }
  }

  lemma SendSurvivesReading(conn: Conn, incoming: seq<ReadEvent>)
    ensures ReadLoop(conn, incoming).0.send == conn.send
  {
    var consumed := ReadLoopParsesOnce(conn, incoming);
  }

  /** Whatever a poll returns can be sent on: it encodes, and is not too large. */
  lemma GivenCanBeForwarded(conn: Conn, net: Net)
    ensures forall p :: PollNext(conn, net).item == Some(Ready(Ok(p))) ==> Deliverable(conn.registry, p)
  {
    hide WriteLoop, ReadLoop, ParseFrame, Understood, Payload;
    if !conn.disconnected {
      WriteLoopOnly(conn, net);
      var flushed := EnsureSpace(conn.(send := conn.send[WriteLoop(conn.send, net.outgoing).0..]));
      var consumed := ReadLoopParsesOnce(flushed, net.incoming);
      ParsedIsDeliverable(conn.registry, conn.cipher.decrypt, flushed.recv + consumed);
    }
  }

  lemma ParsedIsDeliverable(registry: Registry, lane: Lane, s: seq<byte>)
    ensures ParseFrame(registry, lane, s).Parsed? ==> Deliverable(registry, ParseFrame(registry, lane, s).packet)
  {
    if ParseFrame(registry, lane, s).Parsed? {
      ParsedCanBeForwarded(registry, lane, s);
    }
  }

  /** What a socket takes before it first stops or fails, if it is offered enough. */
  function Offered(outgoing: seq<WriteEvent>): nat {
    if outgoing == [] || !outgoing[0].Accepts? then 0 else outgoing[0].limit + Offered(outgoing[1..])
  }

  /** The loop writes as much as the socket takes, whatever its script: the buffer empties exactly if that is enough. */
  lemma {:induction false} FlushEmptiesIff(send: seq<byte>, outgoing: seq<WriteEvent>)
    ensures WriteLoop(send, outgoing).0 == Min(|send|, Offered(outgoing))
    ensures WriteLoop(send, outgoing).0 == |send| <==> |send| <= Offered(outgoing)
    ensures WriteLoop(send, outgoing).0 == |send| ==> !WriteLoop(send, outgoing).1
    decreases |outgoing|
  {
    if send != [] && outgoing != [] && outgoing[0].Accepts? {
      FlushEmptiesIff(send[Min(outgoing[0].limit, |send|)..], outgoing[1..]);
    }
  }

  /** What stops a script of writes: its first event that takes nothing. A silent socket is pending. */
  function WriteStop(outgoing: seq<WriteEvent>): WriteEvent {
    if outgoing == [] then WritePends
    else if outgoing[0].Accepts? then WriteStop(outgoing[1..]) else outgoing[0]
  }

  /** The flush fails exactly if the socket fails before it took the whole buffer. */
  lemma {:induction false} FlushFailsIff(send: seq<byte>, outgoing: seq<WriteEvent>)
    ensures WriteLoop(send, outgoing).1 <==> Offered(outgoing) < |send| && WriteStop(outgoing).WriteFails?
    decreases |outgoing|
  {
    if send != [] && outgoing != [] && outgoing[0].Accepts? {
      FlushFailsIff(send[Min(outgoing[0].limit, |send|)..], outgoing[1..]);
    }
  }

  /** How the loop fails to end: writes of no bytes leave it where it was, however many there are. */
  lemma {:induction false} EmptyWritesLeadNowhere(send: seq<byte>, n: nat, rest: seq<WriteEvent>)
    requires send != []
    ensures WriteLoop(send, seq(n, _ => Accepts(0)) + rest) == WriteLoop(send, rest)
  {
    var script := seq(n, _ => Accepts(0)) + rest;
    if n == 0 {
      assert script == rest;
    } else {
      EmptyWritesLeadNowhere(send, n - 1, rest);
      assert script[1..] == seq(n - 1, _ => Accepts(0)) + rest;
      assert send[0..] == send;
    }
  }

  /**
    A socket that always takes something is asked at most once per buffered byte: the loop ends because the buffer
    shrinks, with the buffer empty.
   */
  lemma {:induction false} FlushTerminates(send: seq<byte>, outgoing: seq<WriteEvent>)
    requires |outgoing| >= |send|
    requires forall i :: 0 <= i < |outgoing| ==> outgoing[i].Accepts? && outgoing[i].limit > 0
    ensures var (n, failed, rest) := WriteLoop(send, outgoing);
            !failed && n == |send| && |outgoing| - |rest| <= |send|
    decreases |outgoing|
  {
    if send != [] {
      var n := Min(outgoing[0].limit, |send|);
      FlushTerminates(send[n..], outgoing[1..]);
    }
  }

  // ---------------------------------------------------------------- exactly one outcome

  /** The bytes a script delivers before it first stops, fails or closes. */
  function DeliveredFirst(incoming: seq<ReadEvent>): seq<byte> {
    if incoming == [] || !incoming[0].Data? || incoming[0].bytes == [] then []
    else incoming[0].bytes + DeliveredFirst(incoming[1..])
  }

  /** What stops it: no data at all means that the peer closed, and a silent socket is pending. */
  function ReadStop(incoming: seq<ReadEvent>): ReadEvent {
    if incoming == [] then ReadPends
    else if incoming[0].Data? && incoming[0].bytes != [] then ReadStop(incoming[1..]) else incoming[0]
  }

  /** What a poll returns when the bytes it can get end with `stop`. */
  function Verdict(registry: Registry, lane: Lane, s: seq<byte>, stop: ReadEvent): Poll {
    match ParseFrame(registry, lane, s)
    case Parsed(p, _, _) => Ready(Ok(p))
    case Failed(e, _, _) => Ready(Err(e))
    case NeedMore(_) =>
      match stop
      case Data(_) => Ready(Err(ConnectionClosed(Disconnected)))
      case ReadFails => Ready(Err(ConnectionClosed(ReadError)))
      case ReadPends => Pending
  }

  /** A frame at the front of a stream decides, whatever comes after it. */
  lemma VerdictIsLocal(registry: Registry, lane: Lane, s: seq<byte>, more: seq<byte>, stop: ReadEvent)
    requires !ParseFrame(registry, lane, s).NeedMore?
    ensures Verdict(registry, lane, s + more, stop) == Verdict(registry, lane, s, stop)
  {
    hide ParseFrame;
    ParseIsLocal(registry, lane, s, more);
  }

  lemma ReadTakesFromFront(incoming: seq<ReadEvent>, space: nat)
    requires space > 0 && incoming != [] && incoming[0].Data? && incoming[0].bytes != []
    ensures var (outcome, rest) := SocketRead(incoming, space);
            && outcome.IoReady? && outcome.value != []
            && DeliveredFirst(incoming) == outcome.value + DeliveredFirst(rest) && ReadStop(incoming) == ReadStop(rest)
  {
    var bytes, later := incoming[0].bytes, incoming[1..];
    var n := Min(|bytes|, space);
    assert incoming == [Data(bytes)] + later;
    DeliveredOfData(bytes, later);
    hide DeliveredFirst, ReadStop;
    if n < |bytes| {
      DeliveredOfData(bytes[n..], later);
      SplitDelivery(bytes, n, DeliveredFirst(later));
    } else {
      assert bytes[..n] == bytes;
    }
  }

  lemma DeliveredOfData(bytes: seq<byte>, later: seq<ReadEvent>)
    requires bytes != []
    ensures DeliveredFirst([Data(bytes)] + later) == bytes + DeliveredFirst(later)
    ensures ReadStop([Data(bytes)] + later) == ReadStop(later)
  {
    assert ([Data(bytes)] + later)[1..] == later;
  }

  lemma SplitDelivery(bytes: seq<byte>, n: nat, later: seq<byte>)
    requires n <= |bytes|
    ensures bytes + later == bytes[..n] + (bytes[n..] + later)
  {
  }

  lemma {:induction false} ReadLoopIsExact(conn: Conn, incoming: seq<ReadEvent>)
    requires Roomy(conn)
    ensures ReadLoop(conn, incoming).1
         == Verdict(conn.registry, conn.cipher.decrypt, conn.recv + DeliveredFirst(incoming), ReadStop(incoming))
    decreases Weight(incoming)
  {
    hide ParseFrame, Weight;
    var (tried, poll) := TryParse(conn);
    var (registry, lane, stop) := (conn.registry, conn.cipher.decrypt, ReadStop(incoming));
    ParsedLength(registry, lane, conn.recv);
    SpaceIsOffered(conn);
    if poll.Ready? {
      VerdictIsLocal(registry, lane, conn.recv, DeliveredFirst(incoming), stop);
    } else {
      var space := tried.recvLen - |tried.recv|;
      if incoming != [] && incoming[0].Data? && incoming[0].bytes != [] {
        ReadTakesFromFront(incoming, space);
        ReadIsProgress(incoming, space);
        var (outcome, rest) := SocketRead(incoming, space);
        hide SocketRead, DeliveredFirst, ReadStop, Verdict;
        ReadLoopIsExact(tried.(recv := tried.recv + outcome.value), rest);
        assert conn.recv + outcome.value + DeliveredFirst(rest) == conn.recv + (outcome.value + DeliveredFirst(rest));
      } else {
        assert conn.recv + [] == conn.recv;
      }
    }
  }

  /**
    What one poll of a live connection returns, for every script of its socket: a failed write if the socket fails
    before the buffer is written; otherwise the first packet or error in the bytes it can get, and if there is none,
    what stopped the bytes.
   */
  lemma PollIsExact(conn: Conn, net: Net)
    requires !conn.disconnected && InBounds(conn)
    ensures PollNext(conn, net).item == Some(
              if Offered(net.outgoing) < |conn.send| && WriteStop(net.outgoing).WriteFails? then
                Ready(Err(ConnectionClosed(WriteError)))
              else
                Verdict(conn.registry, conn.cipher.decrypt, conn.recv + DeliveredFirst(net.incoming), ReadStop(net.incoming)))
  {
    hide ReadLoop, WriteLoop, Verdict, Offered, WriteStop;
    FlushFailsIff(conn.send, net.outgoing);
    WriteLoopOnly(conn, net);
    var (n, failed, _) := WriteLoop(conn.send, net.outgoing);
    if !failed {
      ReadLoopIsExact(EnsureSpace(conn.(send := conn.send[n..])), net.incoming);
    }
  }
}
