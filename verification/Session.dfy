/** Every run of two peers, from the first byte: the handshake, and a FIFO channel of packets in each direction. */
module Sessions {
  import opened Wrappers
  import opened Bytes
  import opened Cipher
  import opened Packets
  import opened Wire
  import opened WireLaws
  import opened PollLaws
  import opened Handshakes
  import opened Channel

  /** `toClient` and `toServer` are the bytes in flight; the packet lists record what the owners sent and were given. */
  datatype System = System(
    server: Conn,
    client: Conn,
    toClient: seq<byte>,
    toServer: seq<byte>,
    serverKey: Option<seq<byte>>,
    clientStarted: bool,
    sentByServer: seq<Packet>,
    sentByClient: seq<Packet>,
    gotByServer: seq<Packet>,
    gotByClient: seq<Packet>)

  datatype Action =
    | ServerStarts(key: seq<byte>)
    | ServerSends(p: Packet)
    | ClientSends(p: Packet)
    | ServerPolls(net: Net)
    | ClientPolls(net: Net)

  function Initial(s2c: Registry, c2s: Registry): System {
    var server := Conn(true, PLAIN, false, [], 0, [], c2s);
    var client := Conn(false, PLAIN, false, [], 0, [], s2c);
    System(server, client, [], [], None, false, [], [], [], [])
  }

  /**
    The owners' protocol: a connection is used once its handshake is done, and senders send packets their peer can
    receive. A socket delivers nothing but a front of what is in flight.
   */
  predicate Enabled(s: System, a: Action) {
    match a
    case ServerStarts(key) => s.serverKey.None? && |key| == KEY_LENGTH
    case ServerSends(p) =>
      s.serverKey.Some? && IsPacket(p) && (Payload(p).Ok? ==> Deliverable(s.client.registry, p))
    case ClientSends(p) =>
      s.clientStarted && IsPacket(p) && (Payload(p).Ok? ==> Deliverable(s.server.registry, p))
    case ServerPolls(net) => s.serverKey.Some? && DataOf(net.incoming) <= s.toServer
    case ClientPolls(net) => DataOf(net.incoming) <= s.toClient
  }

  function GivenBy(item: Option<Poll>): seq<Packet> {
    match item
    case Some(Ready(Ok(p))) => [p]
    case _ => []
  }

  function Next(s: System, a: Action): System
    requires Enabled(s, a)
  {
    match a
    case ServerStarts(key) =>
      var (server, failure) := StartServer(s.server, key);
      if failure.Some? then s else s.(server := server, serverKey := Some(key))
    case ServerSends(p) =>
      var (server, failure) := SendPacket(s.server, p);
      s.(server := server, sentByServer := if failure.None? then s.sentByServer + [p] else s.sentByServer)
    case ClientSends(p) =>
      var (client, failure) := SendPacket(s.client, p);
      s.(client := client, sentByClient := if failure.None? then s.sentByClient + [p] else s.sentByClient)
    case ServerPolls(net) =>
      var polled := PollNext(s.server, net);
      var taken := |Taken(net.incoming, polled.net.incoming)|;
      s.(server := polled.conn,
         toClient := s.toClient + polled.accepted,
         toServer := s.toServer[Min(taken, |s.toServer|)..],
         gotByServer := s.gotByServer + GivenBy(polled.item))
    case ClientPolls(net) =>
      var polled := PollNext(s.client, net);
      var taken := |Taken(net.incoming, polled.net.incoming)|;
      var s' := s.(toServer := s.toServer + polled.accepted, toClient := s.toClient[Min(taken, |s.toClient|)..]);
      if s.clientStarted then
        s'.(client := polled.conn, gotByClient := s.gotByClient + GivenBy(polled.item))
      else
        var (client, outcome) := AcceptInit(polled.conn, polled.item);
        s'.(client := client, clientStarted := outcome.Started?)
  }

  predicate Run(s: System, actions: seq<Action>)
    decreases |actions|
  {
    actions == [] || (Enabled(s, actions[0]) && Run(Next(s, actions[0]), actions[1..]))
  }

  function After(s: System, actions: seq<Action>): System
    requires Run(s, actions)
    decreases |actions|
  {
    if actions == [] then s else After(Next(s, actions[0]), actions[1..])
  }

  // ---------------------------------------------------------------- the invariant

  predicate KnowsInit(registry: Registry) {
    INIT_ID in registry.packets && registry.packets[INIT_ID] == INIT_TYPES
  }

  /** The client as it will be once it has the key. */
  function Keyed(client: Conn, key: seq<byte>): Conn {
    client.(cipher := NewXor(Client, key))
  }

  /** The two directions of a session and the keys they start with. */
  function S2C(key: seq<byte>): Lane {
    XorLane(StartKey(key, 0))
  }

  function C2S(key: seq<byte>): Lane {
    XorLane(StartKey(key, 87))
  }

  /**
    FIFO from `sender` to `receiver` over a lane that began at `start`: every packet sent moved the sender's end of
    the lane, every packet given to the receiver's owner moved the other end, and between the two is the flow. Once
    the receiver is dead, what its owner got stays a prefix.
   */
  predicate Fifo(start: Lane, sender: Conn, flight: seq<byte>, receiver: Conn, sent: seq<Packet>, got: seq<Packet>) {
    && AllDeliverable(receiver.registry, sent)
    && got <= sent
    && sender.cipher.encrypt == Frames(start, sent).1
    && (receiver.disconnected ||
        (receiver.cipher.decrypt == Frames(start, got).1 && Flow(sender, flight, receiver, sent[|got|..])))
  }

  /** Every packet the server sent after the key moved its end of the lane. */
  predicate ServerLane(s: System, key: seq<byte>) {
    && AllDeliverable(s.client.registry, s.sentByServer)
    && s.server.cipher.encrypt == Frames(S2C(key), s.sentByServer).1
  }

  /** Before the client has the key: one plain frame with the key, then encrypted frames. */
  predicate Greeting(s: System, key: seq<byte>)
    requires ServerLane(s, key)
  {
    && Deliverable(s.client.registry, InitPacket(key))
    && s.client.recv + s.toClient + s.server.send
       == Frame(PlainLane, InitPacket(key)).value.0 + Frames(S2C(key), s.sentByServer).0
  }

  predicate Invariant(s: System) {
    && KnowsInit(s.client.registry)
    && match s.serverKey
       case None =>
         && s == Initial(s.client.registry, s.server.registry).(client := s.client)
         && s.client == Initial(s.client.registry, s.server.registry).client.(
              recvLen := s.client.recvLen, disconnected := s.client.disconnected)
       case Some(key) =>
         if s.clientStarted then
           && Fifo(S2C(key), s.server, s.toClient, s.client, s.sentByServer, s.gotByClient)
           && Fifo(C2S(key), s.client, s.toServer, s.server, s.sentByClient, s.gotByServer)
         else
           && s.client.cipher == PLAIN && s.gotByClient == [] && s.sentByClient == []
           && ServerLane(s, key)
           && Fifo(C2S(key), Keyed(s.client, key), s.toServer, s.server, [], s.gotByServer)
           && (s.client.disconnected || Greeting(s, key))
  }

  // ---------------------------------------------------------------- preservation

  lemma StartKeepsInvariant(s: System, key: seq<byte>)
    requires Invariant(s) && Enabled(s, ServerStarts(key))
    ensures Invariant(Next(s, ServerStarts(key)))
    ensures Next(s, ServerStarts(key)).serverKey == Some(key)
  {
    hide Payload, Understood, ParseFrame;
    InitPacketIsDeliverable(s.client.registry, key);
    InitPacketCarriesKey(key);
    OppositeModesMirror(key);
    var frame := Frame(PlainLane, InitPacket(key)).value.0;
    var s' := Next(s, ServerStarts(key));
    assert s'.server.send == frame;
    assert s'.client.recv + s'.toClient + s'.server.send == frame + [];
  }

  /** Sending moves the sender's end of its lane. */
  lemma SendKeepsFifo(start: Lane, x: Conn, y: Conn, toY: seq<byte>, sentByX: seq<Packet>, gotByY: seq<Packet>, p: Packet)
    requires Fifo(start, x, toY, y, sentByX, gotByY)
    requires IsPacket(p) && (Payload(p).Ok? ==> Deliverable(y.registry, p))
    ensures var (x', failure) := SendPacket(x, p);
            Fifo(start, x', toY, y, if failure.None? then sentByX + [p] else sentByX, gotByY)
  {
    hide Payload, Understood, ParseFrame, Frames, Frame;
    var n := |gotByY|;
    if Payload(p).Ok? {
      assert forall q :: q in sentByX + [p] ==> Deliverable(y.registry, q);
      FramesAppend(start, sentByX, p);
      assert (sentByX + [p])[n..] == sentByX[n..] + [p];
      if !y.disconnected {
        FlowSend(x, toY, y, sentByX[n..], p);
      }
    }
  }

  /** Sending does not touch the lane of the other direction. */
  lemma SendIgnoresOtherLane(start: Lane, x: Conn, y: Conn, toX: seq<byte>, sent: seq<Packet>, got: seq<Packet>, p: Packet)
    requires Fifo(start, y, toX, x, sent, got) && IsPacket(p)
    ensures Fifo(start, y, toX, SendPacket(x, p).0, sent, got)
  {
    hide Payload, Understood, ParseFrame, Frames, Frame;
  }

  lemma ServerSendKeepsGreeting(s: System, key: seq<byte>, p: Packet)
    requires ServerLane(s, key) && Deliverable(s.client.registry, p)
    ensures var s' := s.(server := SendPacket(s.server, p).0, sentByServer := s.sentByServer + [p]);
            ServerLane(s', key) && (Greeting(s, key) ==> Greeting(s', key))
  {
    hide Payload, Understood, Frame, Frames;
    var lane := S2C(key);
    assert forall q :: q in s.sentByServer + [p] ==> Deliverable(s.client.registry, q);
    FramesAppend(lane, s.sentByServer, p);
    var frame := Frame(s.server.cipher.encrypt, p).value.0;
    var frames := Frames(lane, s.sentByServer).0;
    assert s.client.recv + s.toClient + (s.server.send + frame) == s.client.recv + s.toClient + s.server.send + frame;
    if Greeting(s, key) {
      var init := Frame(PlainLane, InitPacket(key)).value.0;
      assert init + (frames + frame) == init + frames + frame;
    }
  }

  lemma SendsKeepInvariant(s: System, a: Action)
    requires Invariant(s) && Enabled(s, a) && (a.ServerSends? || a.ClientSends?)
    ensures Invariant(Next(s, a))
  {
    hide Payload, Understood, ParseFrame, Frames, Frame, Greeting, Flow;
    var key := s.serverKey.value;
    if s.clientStarted {
      if a.ServerSends? {
        SendKeepsFifo(S2C(key), s.server, s.client, s.toClient, s.sentByServer, s.gotByClient, a.p);
        SendIgnoresOtherLane(C2S(key), s.server, s.client, s.toServer, s.sentByClient, s.gotByServer, a.p);
      } else {
        SendKeepsFifo(C2S(key), s.client, s.server, s.toServer, s.sentByClient, s.gotByServer, a.p);
        SendIgnoresOtherLane(S2C(key), s.client, s.server, s.toClient, s.sentByServer, s.gotByClient, a.p);
      }
    } else {
      EarlyServerSend(s, a);
    }
  }

  lemma EarlyServerSend(s: System, a: Action)
    requires Invariant(s) && Enabled(s, a) && a.ServerSends? && !s.clientStarted
    ensures Invariant(Next(s, a))
  {
    hide Payload, Understood, ParseFrame, Frames;
    if Payload(a.p).Ok? {
      ServerSendKeepsGreeting(s, s.serverKey.value, a.p);
    }
  }

  /** The receiving half of a poll. */
  lemma PollReceives(start: Lane, x: Conn, y: Conn, toX: seq<byte>, sentByY: seq<Packet>, gotByX: seq<Packet>, net: Net)
    requires Fifo(start, y, toX, x, sentByY, gotByX)
    requires DataOf(net.incoming) <= toX
    ensures var polled := PollNext(x, net);
            var taken := |Taken(net.incoming, polled.net.incoming)|;
            && taken <= |toX|
            && Fifo(start, y, toX[taken..], polled.conn, sentByY, gotByX + GivenBy(polled.item))
            && polled.accepted + polled.conn.send == x.send
            && polled.conn.cipher.encrypt == x.cipher.encrypt
            && (x.disconnected ==> polled.conn.disconnected)
  {
    hide Payload, Understood, ParseFrame, Frames, DataOf, PollNext;
    var polled := PollNext(x, net);
    if x.disconnected {
      DeadPoll(x, net);
      assert toX[0..] == toX && gotByX + [] == gotByX && [] + x.send == x.send;
    } else {
      var und := sentByY[|gotByX|..];
      PollKeepsFlows(x, y, toX, und, net);
      assert gotByX + [] == gotByX;
      RegistryIsFixed(x, net);
      if GivenBy(polled.item) != [] {
        assert und[1..] == sentByY[|gotByX| + 1..];
        assert gotByX + [und[0]] <= sentByY;
        assert und[0] in sentByY && forall q :: q in gotByX ==> q in sentByY;
        FramesAppend(start, gotByX, und[0]);
      }
    }
  }

  lemma DeadPoll(x: Conn, net: Net)
    requires x.disconnected
    ensures PollNext(x, net) == Polled(x, None, net, []) && Taken(net.incoming, net.incoming) == []
  {
  }

  /** The sending half: what the socket took is in flight now. */
  lemma PollSends(start: Lane, x: Conn, x': Conn, toY: seq<byte>, accepted: seq<byte>, y: Conn, sent: seq<Packet>, got: seq<Packet>)
    requires Fifo(start, x, toY, y, sent, got)
    requires accepted + x'.send == x.send && x'.cipher.encrypt == x.cipher.encrypt
    ensures Fifo(start, x', toY + accepted, y, sent, got)
  {
    hide Payload, Understood, Frames;
    if !y.disconnected {
      FlowFlush(x, x', toY, accepted, y, sent[|got|..]);
    }
  }

  lemma RegistryIsFixed(x: Conn, net: Net)
    ensures PollNext(x, net).conn.registry == x.registry
  {
    hide WriteLoop, ReadLoop;
    if !x.disconnected {
      WriteLoopOnly(x, net);
      var (n, failed, _) := WriteLoop(x.send, net.outgoing);
      var consumed := ReadLoopParsesOnce(EnsureSpace(x.(send := x.send[n..])), net.incoming);
    }
  }

  lemma StartedPollKeepsInvariant(s: System, a: Action)
    requires Invariant(s) && Enabled(s, a) && (a.ServerPolls? || a.ClientPolls?) && s.clientStarted
    ensures Invariant(Next(s, a))
  {
    hide Payload, Understood, ParseFrame, Frames, DataOf, PollNext, Flow;
    var key := s.serverKey.value;
    if a.ServerPolls? {
      var polled := PollNext(s.server, a.net);
      PollReceives(C2S(key), s.server, s.client, s.toServer, s.sentByClient, s.gotByServer, a.net);
      PollSends(S2C(key), s.server, polled.conn, s.toClient, polled.accepted, s.client, s.sentByServer, s.gotByClient);
    } else {
      var polled := PollNext(s.client, a.net);
      PollReceives(S2C(key), s.client, s.server, s.toClient, s.sentByServer, s.gotByClient, a.net);
      PollSends(C2S(key), s.client, polled.conn, s.toServer, polled.accepted, s.server, s.sentByClient, s.gotByServer);
      RegistryIsFixed(s.client, a.net);
    }
  }

  lemma EarlyServerPollKeepsInvariant(s: System, net: Net)
    requires Invariant(s) && Enabled(s, ServerPolls(net)) && !s.clientStarted
    ensures Invariant(Next(s, ServerPolls(net)))
  {
    hide Payload, Understood, ParseFrame, Frames, DataOf, PollNext, Flow;
    var key := s.serverKey.value;
    var polled := PollNext(s.server, net);
    PollReceives(C2S(key), s.server, Keyed(s.client, key), s.toServer, [], s.gotByServer, net);
    FrameRest(s.client.recv, s.toClient, s.server.send);
    assert s.client.recv + (s.toClient + polled.accepted) + polled.conn.send
        == s.client.recv + s.toClient + (polled.accepted + polled.conn.send);
  }

  /** Polling the client before it has the key: the first packet, whenever it is complete, is the key. */
  lemma GreetedPoll(s: System, key: seq<byte>, net: Net)
    requires ServerLane(s, key) && Greeting(s, key) && !s.client.disconnected && s.client.cipher == PLAIN
    requires DataOf(net.incoming) <= s.toClient
    ensures var polled := PollNext(s.client, net);
            var taken := |Taken(net.incoming, polled.net.incoming)|;
            && taken <= |s.toClient|
            && polled.accepted + polled.conn.send == s.client.send
            && polled.conn.registry == s.client.registry
            && match polled.item
               case Some(Ready(Ok(p))) =>
                 && p == InitPacket(key) && !polled.conn.disconnected
                 && Flow(s.server, s.toClient[taken..], Keyed(polled.conn, key), s.sentByServer)
               case Some(Ready(Err(e))) =>
                 e.ConnectionClosed? && polled.conn.disconnected && polled.conn.cipher == PLAIN
               case Some(Pending) =>
                 && polled.conn.cipher == PLAIN && !polled.conn.disconnected
                 && Greeting(s.(client := polled.conn, toClient := s.toClient[taken..]), key)
               case None => false
  {
    hide WriteLoop, ReadLoop, ParseFrame, Frames, DataOf, Payload, Understood, Frame;
    WriteLoopOnly(s.client, net);
    var (n, failed, _) := WriteLoop(s.client.send, net.outgoing);
    assert s.client.send[..n] + s.client.send[n..] == s.client.send;
    if failed {
      TakenAll(net.incoming, net.incoming, []);
    } else {
      var flushed := EnsureSpace(s.client.(send := s.client.send[n..]));
      var consumed := ReadLoopParsesOnce(flushed, net.incoming);
      var (x', poll, rest) := ReadLoop(flushed, net.incoming);
      TakenAll(net.incoming, rest, consumed);
      assert s.toClient[|consumed|..] == s.toClient[|Taken(net.incoming, rest)|..];
      GreetingArrives(s, key, flushed, consumed, x', poll);
    }
  }

  lemma GreetingArrives(s: System, key: seq<byte>, client: Conn, consumed: seq<byte>, client': Conn, poll: Poll)
    requires ServerLane(s, key) && Greeting(s, key) && consumed <= s.toClient
    requires client.cipher == PLAIN && client.recv == s.client.recv && client.registry == s.client.registry
    requires ReadOutcome(client, client.recv + consumed, client', poll)
    ensures match poll
            case Ready(Ok(p)) =>
              p == InitPacket(key) && Flow(s.server, s.toClient[|consumed|..], Keyed(client', key), s.sentByServer)
            case Ready(Err(e)) => e.ConnectionClosed? && client'.cipher == PLAIN
            case Pending =>
              client'.cipher == PLAIN && Greeting(s.(client := client', toClient := s.toClient[|consumed|..]), key)
  {
    hide ParseFrame, Frames, Payload, Understood, Frame;
    OppositeModesMirror(key);
    var lane := S2C(key);
    var unread := client.recv + consumed;
    var rest := s.toClient[|consumed|..] + s.server.send;
    Regroup(client.recv, consumed, s.toClient, s.server.send);
    HeadArrives(client.registry, PlainLane, InitPacket(key), Frames(lane, s.sentByServer).0, unread, rest);
    FrameRest(client'.recv, s.toClient[|consumed|..], s.server.send);
    assert unread + rest == client.recv + s.toClient + s.server.send;
  }

  lemma NoFrames(lane: Lane)
    ensures Frames(lane, []) == ([], lane)
  {
  }

  lemma EarlyClientPollKeepsInvariant(s: System, net: Net)
    requires Invariant(s) && Enabled(s, ClientPolls(net)) && !s.clientStarted && s.serverKey.Some?
    ensures Invariant(Next(s, ClientPolls(net)))
  {
    hide Payload, Understood, ParseFrame, Frames, Frame, DataOf, PollNext, Flow;
    var key := s.serverKey.value;
    var polled := PollNext(s.client, net);
    InitPacketCarriesKey(key);
    if s.client.disconnected {
      DeadPoll(s.client, net);
      assert s.toServer + [] == s.toServer;
    } else {
      GreetedPoll(s, key, net);
      PollSends(C2S(key), Keyed(s.client, key), Keyed(polled.conn, key), s.toServer, polled.accepted, s.server, [], s.gotByServer);
      assert s.sentByServer[0..] == s.sentByServer;
      NoFrames(S2C(key));
    }
  }

  /** Before the server has started there is nothing to read. */
  lemma IdleClientPollKeepsInvariant(s: System, net: Net)
    requires Invariant(s) && Enabled(s, ClientPolls(net)) && s.serverKey.None?
    ensures Invariant(Next(s, ClientPolls(net)))
  {
    hide ParseFrame, DataOf, ReadLoop, WriteLoop;
    if s.client.disconnected {
      DeadPoll(s.client, net);
    } else {
      WriteLoopOnly(s.client, net);
      var (n, failed, _) := WriteLoop(s.client.send, net.outgoing);
      var flushed := EnsureSpace(s.client.(send := s.client.send[n..]));
      var consumed := ReadLoopParsesOnce(flushed, net.incoming);
      NothingParsesToNothing(s.client.registry, PlainLane);
      assert flushed.recv + consumed == [];
    }
  }
}
