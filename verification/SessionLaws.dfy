/** The theorems about sessions: what holds after every run of two peers and the network between them. */
module SessionLaws {
  import opened Wrappers
  import opened Bytes
  import opened Cipher
  import opened Packets
  import opened Wire
  import opened WireLaws
  import opened PollLaws
  import opened Handshakes
  import opened Channel
  import opened Sessions

  lemma ActionKeepsInvariant(s: System, a: Action)
    requires Invariant(s) && Enabled(s, a)
    ensures Invariant(Next(s, a))
  {
    hide Next, Invariant;
    match a
    case ServerStarts(key) => StartKeepsInvariant(s, key);
    case ServerSends(_) => SendsKeepInvariant(s, a);
    case ClientSends(_) => SendsKeepInvariant(s, a);
    case ServerPolls(net) =>
      if s.clientStarted { StartedPollKeepsInvariant(s, a); } else { EarlyServerPollKeepsInvariant(s, net); }
    case ClientPolls(net) =>
      if s.clientStarted { StartedPollKeepsInvariant(s, a); }
      else if s.serverKey.Some? { EarlyClientPollKeepsInvariant(s, net); }
      else { IdleClientPollKeepsInvariant(s, net); }
  }

  lemma {:induction false} RunKeepsInvariant(s: System, actions: seq<Action>)
    requires Invariant(s) && Run(s, actions)
    ensures Invariant(After(s, actions))
    decreases |actions|
  {
    hide Next, Invariant, Enabled;
    if actions != [] {
      ActionKeepsInvariant(s, actions[0]);
      RunKeepsInvariant(Next(s, actions[0]), actions[1..]);
    }
  }

  /** A state that some run of a fresh session reaches. */
  ghost predicate Reachable(s: System) {
    exists s2c: Registry, c2s: Registry, actions: seq<Action> ::
      KnowsInit(s2c) && Run(Initial(s2c, c2s), actions) && After(Initial(s2c, c2s), actions) == s
  }

  lemma ReachableIsInvariant(s: System)
    requires Reachable(s)
    ensures Invariant(s)
  {
    hide Next, Enabled;
    var s2c: Registry, c2s: Registry, actions: seq<Action> :|
      KnowsInit(s2c) && Run(Initial(s2c, c2s), actions) && After(Initial(s2c, c2s), actions) == s;
    RunKeepsInvariant(Initial(s2c, c2s), actions);
  }

  lemma InvariantIsFifo(s: System)
    requires Invariant(s)
    ensures s.gotByClient <= s.sentByServer && s.gotByServer <= s.sentByClient
  {
    hide Flow, Frames;
  }

  /** Each owner was given a prefix of what the other sent, whatever the network did. */
  lemma FifoBothWays(s: System)
    requires Reachable(s)
    ensures s.gotByClient <= s.sentByServer && s.gotByServer <= s.sentByClient
  {
    hide Reachable, Invariant;
    ReachableIsInvariant(s);
    InvariantIsFifo(s);
  }

  /** Nothing is on its way to a live client. */
  predicate DrainedToClient(s: System) {
    !s.client.disconnected && s.client.recv == [] && s.toClient == [] && s.server.send == []
  }

  /** Nothing is on its way to a live server. */
  predicate DrainedToServer(s: System) {
    !s.server.disconnected && s.server.recv == [] && s.toServer == [] && s.client.send == []
  }

  lemma InvariantDrained(s: System)
    requires Invariant(s)
    ensures DrainedToClient(s) ==> s.gotByClient == s.sentByServer
    ensures DrainedToServer(s) ==> s.gotByServer == s.sentByClient
  {
    hide Frames;
    if s.clientStarted {
      if DrainedToClient(s) {
        FlowDrained(s.server, s.toClient, s.client, s.sentByServer[|s.gotByClient|..]);
      }
      if DrainedToServer(s) {
        FlowDrained(s.client, s.toServer, s.server, s.sentByClient[|s.gotByServer|..]);
      }
    }
  }

  /** When the bytes of a direction have drained and the receiver is alive, everything sent was delivered. */
  lemma DrainedMeansDelivered(s: System)
    requires Reachable(s)
    ensures DrainedToClient(s) ==> s.gotByClient == s.sentByServer
    ensures DrainedToServer(s) ==> s.gotByServer == s.sentByClient
  {
    hide Reachable, Invariant;
    ReachableIsInvariant(s);
    InvariantDrained(s);
  }

  /**
    The handshake boundary. Until a live client has the key, what is on its way to it is one plain frame with the
    key, then frames that are all encrypted from the start of the lane. Once it has the key, each end of each lane
    has gone through exactly the packets that end has handled, from the start: no frame but the first was plain for
    either side, and none of the others was missed.
   */
  lemma HandshakeBoundary(s: System)
    requires Reachable(s) && s.serverKey.Some?
    ensures var key := s.serverKey.value;
            && ServerLane(s, key)
            && (!s.clientStarted ==>
                  && s.client.cipher == PLAIN && s.gotByClient == [] && s.sentByClient == []
                  && (s.client.disconnected || Greeting(s, key)))
            && (s.clientStarted ==> EndsAgree(S2C(key), s.server, s.client, s.sentByServer, s.gotByClient))
            && (s.clientStarted ==> EndsAgree(C2S(key), s.client, s.server, s.sentByClient, s.gotByServer))
  {
    hide Reachable, Frames, Flow;
    ReachableIsInvariant(s);
  }

  /** Both ends of a lane are where the packets they handled took it from `start`. */
  predicate EndsAgree(start: Lane, sender: Conn, receiver: Conn, sent: seq<Packet>, got: seq<Packet>) {
    && got <= sent && AllDeliverable(receiver.registry, sent)
    && sender.cipher.encrypt == Frames(start, sent).1
    && (receiver.disconnected || receiver.cipher.decrypt == Frames(start, got).1)
  }

  /**
    Between peers that keep to the protocol only the network ends a connection: no frame is ever refused, and the
    first packet a client is given is the key it waits for.
   */
  lemma OnlyTheNetworkEndsSessions(s: System, a: Action)
    requires Reachable(s) && Enabled(s, a)
    ensures match a
            case ServerPolls(net) => EndsByClosing(PollNext(s.server, net).item)
            case ClientPolls(net) =>
              && EndsByClosing(PollNext(s.client, net).item)
              && (!s.clientStarted ==> forall p :: PollNext(s.client, net).item == Some(Ready(Ok(p))) ==>
                    s.serverKey.Some? && p == InitPacket(s.serverKey.value))
            case _ => true
  {
    hide Reachable, Frames, PollNext, DataOf, Payload, Understood;
    ReachableIsInvariant(s);
    match a
    case ServerPolls(net) =>
      var key := s.serverKey.value;
      var client := if s.clientStarted then s.client else Keyed(s.client, key);
      if s.server.disconnected {
        DeadPoll(s.server, net);
      } else {
        PollKeepsFlows(s.server, client, s.toServer, s.sentByClient[|s.gotByServer|..], net);
      }
    case ClientPolls(net) =>
      if s.client.disconnected {
        DeadPoll(s.client, net);
      } else if s.clientStarted {
        PollKeepsFlows(s.client, s.server, s.toClient, s.sentByServer[|s.gotByClient|..], net);
      } else if s.serverKey.Some? {
        GreetedPoll(s, s.serverKey.value, net);
      } else {
        NothingToRead(s.client, net);
      }
    case _ =>
  }

  predicate EndsByClosing(item: Option<Poll>) {
    item.Some? && item.value.Ready? && item.value.item.Err? ==> item.value.item.error.ConnectionClosed?
  }

  lemma NothingToRead(x: Conn, net: Net)
    requires !x.disconnected && x.recv == [] && DataOf(net.incoming) <= []
    ensures var item := PollNext(x, net).item;
            item == Some(Pending) || (item.Some? && item.value.Ready? && item.value.item.Err? && EndsByClosing(item))
  {
    hide ParseFrame, DataOf, ReadLoop, WriteLoop;
    WriteLoopOnly(x, net);
    var (n, failed, _) := WriteLoop(x.send, net.outgoing);
    var flushed := EnsureSpace(x.(send := x.send[n..]));
    var consumed := ReadLoopParsesOnce(flushed, net.incoming);
    NothingParsesToNothing(x.registry, x.cipher.decrypt);
    assert flushed.recv + consumed == [];
  }

  // ---------------------------------------------------------------- nothing gets stuck

  predicate Bounded(s: System) {
    InBounds(s.server) && InBounds(s.client)
  }

  lemma ActionKeepsBounds(s: System, a: Action)
    requires Bounded(s) && Enabled(s, a)
    ensures Bounded(Next(s, a))
  {
    hide PollNext, Frame, Payload, DataOf;
    match a
    case ServerPolls(net) => PollKeepsBounds(s.server, net);
    case ClientPolls(net) => PollKeepsBounds(s.client, net);
    case _ =>
  }

  lemma {:induction false} RunKeepsBounds(s: System, actions: seq<Action>)
    requires Bounded(s) && Run(s, actions)
    ensures Bounded(After(s, actions))
    decreases |actions|
  {
    hide Next, Bounded, Enabled;
    if actions != [] {
      ActionKeepsBounds(s, actions[0]);
      RunKeepsBounds(Next(s, actions[0]), actions[1..]);
    }
  }

  /** The network hands over everything in flight. */
  function Deliver(flight: seq<byte>): Net {
    Net(if flight == [] then [] else [Data(flight)], [])
  }

  lemma DataOfDeliver(flight: seq<byte>)
    ensures DataOf(Deliver(flight).incoming) == flight
  {
    if flight != [] {
      assert [Data(flight)][1..] == [];
      assert flight + [] == flight;
    }
  }

  /** With nothing left in the sender's buffer, one poll that is handed the bytes in flight gives the next packet. */
  lemma NextPacketArrives(x: Conn, y: Conn, toX: seq<byte>, fromY: seq<Packet>)
    requires !x.disconnected && InBounds(x) && Flow(y, toX, x, fromY) && y.send == [] && fromY != []
    ensures var polled := PollNext(x, Deliver(toX));
            polled.item == Some(Ready(Ok(fromY[0])))
  {
    hide ReadLoop, ParseFrame, Frames, Payload, Understood, DataOf;
    var net := Deliver(toX);
    DataOfDeliver(toX);
    PollKeepsFlows(x, y, toX, fromY, net);
    WriteLoopOnly(x, net);
    var flushed := EnsureSpace(x);
    assert x.send[0..] == x.send;
    HonestSocket(flushed, net.incoming);
    var consumed := ReadLoopParsesOnce(flushed, net.incoming);
    var (x', poll, rest) := ReadLoop(flushed, net.incoming);
    FlowRead(y, toX, flushed, fromY, consumed, x', poll);
    if poll.Pending? {
      NoData();
      assert consumed == toX && toX[|consumed|..] == [];
      FlowProgress(y, [], x', fromY);
    }
  }

  lemma NoData()
    ensures DataOf([]) == []
  {
  }

  lemma {:induction false} ClientCatchesUp(s: System) returns (actions: seq<Action>)
    requires Invariant(s) && Bounded(s) && s.clientStarted && !s.client.disconnected && s.server.send == []
    ensures Run(s, actions) && After(s, actions).gotByClient == s.sentByServer
    decreases |s.sentByServer| - |s.gotByClient|
  {
    hide PollNext, Frames, DataOf, Payload, Understood, Invariant, Bounded;
    actions := [];
    DuringSession(s);
    if s.gotByClient != s.sentByServer {
      var n := |s.gotByClient|;
      var a := ClientPolls(Deliver(s.toClient));
      DataOfDeliver(s.toClient);
      NextPacketArrives(s.client, s.server, s.toClient, s.sentByServer[n..]);
      PollKeepsFlows(s.client, s.server, s.toClient, s.sentByServer[n..], a.net);
      ActionKeepsInvariant(s, a);
      ActionKeepsBounds(s, a);
      var s' := Next(s, a);
      assert s'.gotByClient == s.gotByClient + [s.sentByServer[n]];
      var rest := ClientCatchesUp(s');
      actions := [a] + rest;
      assert actions[1..] == rest;
    }
  }

  lemma {:induction false} ServerCatchesUp(s: System) returns (actions: seq<Action>)
    requires Invariant(s) && Bounded(s) && s.clientStarted && !s.server.disconnected && s.client.send == []
    ensures Run(s, actions) && After(s, actions).gotByServer == s.sentByClient
    decreases |s.sentByClient| - |s.gotByServer|
  {
    hide PollNext, Frames, DataOf, Payload, Understood, Invariant, Bounded;
    actions := [];
    DuringSession(s);
    if s.gotByServer != s.sentByClient {
      var n := |s.gotByServer|;
      var a := ServerPolls(Deliver(s.toServer));
      DataOfDeliver(s.toServer);
      NextPacketArrives(s.server, s.client, s.toServer, s.sentByClient[n..]);
      PollKeepsFlows(s.server, s.client, s.toServer, s.sentByClient[n..], a.net);
      ActionKeepsInvariant(s, a);
      ActionKeepsBounds(s, a);
      var s' := Next(s, a);
      assert s'.gotByServer == s.gotByServer + [s.sentByClient[n]];
      var rest := ServerCatchesUp(s');
      actions := [a] + rest;
      assert actions[1..] == rest;
    }
  }

  lemma DuringSession(s: System)
    requires Invariant(s) && Bounded(s) && s.clientStarted
    ensures s.serverKey.Some? && s.gotByClient <= s.sentByServer && InBounds(s.client)
    ensures s.gotByServer <= s.sentByClient && InBounds(s.server)
    ensures !s.client.disconnected ==> Flow(s.server, s.toClient, s.client, s.sentByServer[|s.gotByClient|..])
    ensures !s.server.disconnected ==> Flow(s.client, s.toServer, s.server, s.sentByClient[|s.gotByServer|..])
  {
    hide Frames;
  }

  /** The network takes everything `x` has buffered. */
  function Flushing(x: Conn): Net {
    Net([], [Accepts(|x.send|)])
  }

  lemma EndFlushes(x: Conn)
    requires !x.disconnected
    ensures PollNext(x, Flushing(x)).conn.send == []
  {
    hide ReadLoop;
    var net := Flushing(x);
    WriteLoopOnly(x, net);
    var (n, failed, _) := WriteLoop(x.send, net.outgoing);
    assert x.send[|x.send|..] == [];
    SendSurvivesReading(EnsureSpace(x.(send := x.send[n..])), net.incoming);
  }

  /** A poll whose socket neither closes nor fails keeps the connection alive if nothing is wrong with its bytes. */
  lemma HonestPoll(x: Conn, net: Net)
    requires !x.disconnected && InBounds(x)
    requires forall e :: e in net.incoming ==> e.Data? && e.bytes != []
    requires !WriteLoop(x.send, net.outgoing).1
    ensures var item := PollNext(x, net).item;
            item.Some? && item.value.Ready? && item.value.item.Err? ==> !item.value.item.error.ConnectionClosed?
  {
    hide ReadLoop, WriteLoop;
    WriteLoopOnly(x, net);
    HonestSocket(EnsureSpace(x.(send := x.send[WriteLoop(x.send, net.outgoing).0..])), net.incoming);
  }

  lemma FlushingIsHonest(x: Conn)
    ensures !WriteLoop(x.send, Flushing(x).outgoing).1
  {
    assert x.send[|x.send|..] == [];
  }

  lemma {:induction false} RunsCompose(s: System, a: seq<Action>, b: seq<Action>)
    requires Run(s, a) && Run(After(s, a), b)
    ensures Run(s, a + b) && After(s, a + b) == After(After(s, a), b)
    decreases |a|
  {
    hide Next, Enabled;
    if a == [] {
      assert a + b == b;
    } else {
      RunsCompose(Next(s, a[0]), a[1..], b);
      assert (a + b)[0] == a[0] && (a + b)[1..] == a[1..] + b;
    }
  }

  lemma OneStep(s: System, a: Action)
    requires Enabled(s, a)
    ensures Run(s, [a]) && After(s, [a]) == Next(s, a)
  {
    hide Next, Enabled;
    assert [a][1..] == [];
  }

  predicate BothAlive(s: System) {
    !s.client.disconnected && !s.server.disconnected
  }

  /** Nothing was sent between `s` and `s'`. */
  predicate SentTheSame(s: System, s': System) {
    s'.sentByServer == s.sentByServer && s'.sentByClient == s.sentByClient
  }

  /** The server's buffer is put on its way to a client that waits for the key. */
  lemma ServerFlushesEarly(s: System) returns (a: Action)
    requires Invariant(s) && Bounded(s) && s.serverKey.Some? && !s.clientStarted && BothAlive(s)
    ensures Enabled(s, a) && !Next(s, a).clientStarted && BothAlive(Next(s, a)) && SentTheSame(s, Next(s, a))
    ensures Next(s, a).serverKey == s.serverKey && Next(s, a).server.send == []
  {
    hide PollNext, Frames, DataOf, Payload, Understood;
    a := ServerPolls(Flushing(s.server));
    NoData();
    EndFlushes(s.server);
    FlushingIsHonest(s.server);
    HonestPoll(s.server, a.net);
    PollKeepsFlows(s.server, Keyed(s.client, s.serverKey.value), s.toServer, [], a.net);
  }

  /** A waiting client that is handed everything in flight takes the key. */
  lemma ClientStarts(s: System) returns (a: Action)
    requires Invariant(s) && Bounded(s) && s.serverKey.Some? && !s.clientStarted && BothAlive(s)
    requires s.server.send == []
    ensures Enabled(s, a) && Next(s, a).clientStarted && BothAlive(Next(s, a)) && SentTheSame(s, Next(s, a))
  {
    hide PollNext, Frames, DataOf, Payload, Understood, Frame, Flow;
    var key := s.serverKey.value;
    a := ClientPolls(Deliver(s.toClient));
    DataOfDeliver(s.toClient);
    HonestPoll(s.client, a.net);
    GreetedPoll(s, key, a.net);
    GreetingIsHeard(s, key);
    InitPacketCarriesKey(key);
  }

  lemma GreetingIsHeard(s: System, key: seq<byte>)
    requires ServerLane(s, key) && Greeting(s, key) && !s.client.disconnected && s.client.cipher == PLAIN
    requires InBounds(s.client) && s.server.send == []
    ensures var item := PollNext(s.client, Deliver(s.toClient)).item;
            item.Some? && item.value.Ready?
  {
    hide ReadLoop, WriteLoop, ParseFrame, Frames, DataOf, Payload, Understood, Frame;
    var net := Deliver(s.toClient);
    DataOfDeliver(s.toClient);
    WriteLoopOnly(s.client, net);
    var (n, failed, _) := WriteLoop(s.client.send, net.outgoing);
    if !failed {
      var flushed := EnsureSpace(s.client.(send := s.client.send[n..]));
      HonestSocket(flushed, net.incoming);
      var consumed := ReadLoopParsesOnce(flushed, net.incoming);
      var (_, poll, rest) := ReadLoop(flushed, net.incoming);
      if poll.Pending? {
        NoData();
        assert consumed == s.toClient;
        assert flushed.recv + consumed + [] == s.client.recv + s.toClient + s.server.send;
        HeadArrives(s.client.registry, PlainLane, InitPacket(key), Frames(S2C(key), s.sentByServer).0,
                    flushed.recv + consumed, []);
        assert false;
      }
    }
  }

  /** From every state in which the server has started, some behaviour of the network lets the client start too. */
  lemma HandshakeCanComplete(s: System) returns (actions: seq<Action>)
    requires Reachable(s) && s.serverKey.Some? && BothAlive(s)
    ensures Run(s, actions) && After(s, actions).clientStarted
    ensures BothAlive(After(s, actions)) && SentTheSame(s, After(s, actions))
  {
    hide Next, Enabled, Invariant, Bounded, Reachable;
    actions := [];
    if !s.clientStarted {
      ReachableIsInvariant(s);
      ReachableIsBounded(s);
      var a := ServerFlushesEarly(s);
      ActionKeepsInvariant(s, a);
      ActionKeepsBounds(s, a);
      var b := ClientStarts(Next(s, a));
      OneStep(s, a);
      OneStep(Next(s, a), b);
      RunsCompose(s, [a], [b]);
      actions := [a] + [b];
    }
  }

  lemma ClientCanCatchUp(s: System) returns (actions: seq<Action>)
    requires Invariant(s) && Bounded(s) && s.clientStarted && BothAlive(s)
    ensures Run(s, actions) && After(s, actions).gotByClient == s.sentByServer
  {
    hide PollNext, Frames, DataOf, Payload, Understood, Invariant, Bounded;
    DuringSession(s);
    var a := ServerPolls(Flushing(s.server));
    NoData();
    EndFlushes(s.server);
    ActionKeepsInvariant(s, a);
    ActionKeepsBounds(s, a);
    var rest := ClientCatchesUp(Next(s, a));
    actions := [a] + rest;
    assert actions[1..] == rest;
  }

  lemma ServerCanCatchUp(s: System) returns (actions: seq<Action>)
    requires Invariant(s) && Bounded(s) && s.clientStarted && BothAlive(s)
    ensures Run(s, actions) && After(s, actions).gotByServer == s.sentByClient
  {
    hide PollNext, Frames, DataOf, Payload, Understood, Invariant, Bounded;
    DuringSession(s);
    var a := ClientPolls(Flushing(s.client));
    NoData();
    EndFlushes(s.client);
    ActionKeepsInvariant(s, a);
    ActionKeepsBounds(s, a);
    var rest := ServerCatchesUp(Next(s, a));
    actions := [a] + rest;
    assert actions[1..] == rest;
  }

  /** Without a key there is nothing to wait for. */
  lemma NothingBeforeTheKey(s: System)
    requires Invariant(s) && s.serverKey.None?
    ensures s.gotByClient == s.sentByServer && s.gotByServer == s.sentByClient
  {
  }

  /** The state after the handshake, with what holds of every state. */
  lemma AfterHandshake(s: System) returns (actions: seq<Action>)
    requires Reachable(s) && s.serverKey.Some? && BothAlive(s)
    ensures Run(s, actions)
    ensures var started := After(s, actions);
            && Invariant(started) && Bounded(started) && started.clientStarted
            && BothAlive(started) && SentTheSame(s, started)
  {
    hide Next, Enabled, Invariant, Bounded, Reachable;
    ReachableIsInvariant(s);
    ReachableIsBounded(s);
    actions := HandshakeCanComplete(s);
    RunKeepsInvariant(s, actions);
    RunKeepsBounds(s, actions);
  }

  /**
    Nothing gets stuck: from any state in which both sides are alive, before, during or after the handshake, some
    behaviour of the network lets the client catch up with everything the server has sent.
   */
  lemma EverythingCanReachClient(s: System) returns (actions: seq<Action>)
    requires Reachable(s) && BothAlive(s)
    ensures Run(s, actions) && After(s, actions).gotByClient == s.sentByServer
  {
    hide Next, Enabled, Invariant, Bounded, Reachable;
    if s.serverKey.None? {
      actions := [];
      ReachableIsInvariant(s);
      NothingBeforeTheKey(s);
    } else {
      var handshake := AfterHandshake(s);
      var rest := ClientCanCatchUp(After(s, handshake));
      RunsCompose(s, handshake, rest);
      actions := handshake + rest;
    }
  }

  /** The same for what the client has sent. */
  lemma EverythingCanReachServer(s: System) returns (actions: seq<Action>)
    requires Reachable(s) && BothAlive(s)
    ensures Run(s, actions) && After(s, actions).gotByServer == s.sentByClient
  {
    hide Next, Enabled, Invariant, Bounded, Reachable;
    if s.serverKey.None? {
      actions := [];
      ReachableIsInvariant(s);
      NothingBeforeTheKey(s);
    } else {
      var handshake := AfterHandshake(s);
      var rest := ServerCanCatchUp(After(s, handshake));
      RunsCompose(s, handshake, rest);
      actions := handshake + rest;
    }
  }

  lemma ReachableIsBounded(s: System)
    requires Reachable(s)
    ensures Bounded(s)
  {
    hide Next, Enabled;
    var s2c: Registry, c2s: Registry, actions: seq<Action> :|
      KnowsInit(s2c) && Run(Initial(s2c, c2s), actions) && After(Initial(s2c, c2s), actions) == s;
    RunKeepsBounds(Initial(s2c, c2s), actions);
  }
}
