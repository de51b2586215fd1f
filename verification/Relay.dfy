/**
  A proxy between a server and a client: two sessions, joined by a loop that sends on every packet it is given. Both
  sides of the proxy have their own ciphers and keys, and may pass on packets they do not know.
 */
module Relays {
  import opened Wrappers
  import opened Bytes
  import opened Codec
  import opened Cipher
  import opened Packets
  import opened Wire
  import opened WireLaws
  import opened PollLaws
  import opened Handshakes
  import opened Sessions
  import opened SessionLaws

  /**
    `near` is the session between the server and the proxy, `far` the one between the proxy and the client; `down`
    and `up` are the packets that the server and the client sent.
   */
  datatype Relay = Relay(near: System, far: System, down: seq<Packet>, up: seq<Packet>)

  // ---------------------------------------------------------------- packets on their way through

  /** What a side with this registry makes of a packet: one it does not know is a payload to it. */
  function Seen(registry: Registry, p: Packet): (q: Packet)
    requires IsPacket(p)
    ensures IsPacket(q)
  {
    if p.TypedPacket? && p.id !in registry.packets && Payload(p).Ok? then UnknownPacket(p.id, Payload(p).value) else p
  }

  function SeenAll(registry: Registry, ps: seq<Packet>): (qs: seq<Packet>)
    requires forall p :: p in ps ==> IsPacket(p)
    ensures |qs| == |ps|
  {
    seq(|ps|, i requires 0 <= i < |ps| => assert ps[i] in ps; Seen(registry, ps[i]))
  }

  /** On the wire the two are the same. */
  lemma SeenIsSentAlike(conn: Conn, registry: Registry, p: Packet)
    requires IsPacket(p)
    ensures Payload(Seen(registry, p)) == Payload(p)
    ensures SendPacket(conn, Seen(registry, p)) == SendPacket(conn, p)
  {
    hide EncodeFields, EncryptLane, Header;
  }

  /** The sender can see to it that a packet passes a proxy and reaches the peer behind it. */
  predicate Carried(via: Registry, to: Registry, p: Packet) {
    IsPacket(p) && Deliverable(via, Seen(via, p)) && Deliverable(to, p)
  }

  // ---------------------------------------------------------------- the joint system

  datatype Move =
    | ServerStarts(key: seq<byte>)
    | ServerSends(p: Packet)
    | ServerPolls(net: Net)
    | ProxyStarts(key: seq<byte>)
    | ProxyPollsServer(net: Net)
    | ProxyPollsClient(net: Net)
    | ClientPolls(net: Net)
    | ClientSends(p: Packet)

  /** The proxy relays once it has the server's key and has sent its own. */
  predicate Relaying(r: Relay) {
    r.near.clientStarted && r.far.serverKey.Some?
  }

  predicate CanMove(r: Relay, m: Move) {
    match m
    case ServerStarts(key) => Enabled(r.near, Sessions.ServerStarts(key))
    case ServerSends(p) =>
      && r.near.serverKey.Some? && IsPacket(p)
      && (Payload(p).Ok? ==> Carried(r.near.client.registry, r.far.client.registry, p))
    case ServerPolls(net) => Enabled(r.near, Sessions.ServerPolls(net))
    case ProxyStarts(key) => Enabled(r.far, Sessions.ServerStarts(key))
    case ProxyPollsServer(net) => Enabled(r.near, Sessions.ClientPolls(net)) && (r.near.clientStarted ==> Relaying(r))
    case ProxyPollsClient(net) => Enabled(r.far, Sessions.ServerPolls(net)) && Relaying(r)
    case ClientPolls(net) => Enabled(r.far, Sessions.ClientPolls(net))
    case ClientSends(p) =>
      && r.far.clientStarted && IsPacket(p)
      && (Payload(p).Ok? ==> Carried(r.far.server.registry, r.near.server.registry, p))
  }

  /** The packet number `n` that was sent, which the proxy has just been given as `q`. */
  function Original(sent: seq<Packet>, n: nat, q: Packet): Packet {
    if n < |sent| then sent[n] else q
  }

  /** The proxy polls its connection to the server, and sends on what it is given. */
  function RelayDown(r: Relay, net: Net): Relay
    requires Enabled(r.near, Sessions.ClientPolls(net))
  {
    var near := Next(r.near, Sessions.ClientPolls(net));
    var item := PollNext(r.near.client, net).item;
    if !r.near.clientStarted || GivenBy(item) == [] then r.(near := near)
    else
      var q := GivenBy(item)[0];
      GivenCanBeForwarded(r.near.client, net);
      var (server, failure) := SendPacket(r.far.server, q);
      var original := Original(r.down, |r.near.gotByClient|, q);
      r.(near := near, far := r.far.(server := server, sentByServer := r.far.sentByServer + [original]))
  }

  /** The same for its connection to the client. */
  function RelayUp(r: Relay, net: Net): Relay
    requires Enabled(r.far, Sessions.ServerPolls(net))
  {
    var far := Next(r.far, Sessions.ServerPolls(net));
    var item := PollNext(r.far.server, net).item;
    if GivenBy(item) == [] then r.(far := far)
    else
      var q := GivenBy(item)[0];
      GivenCanBeForwarded(r.far.server, net);
      var (client, failure) := SendPacket(r.near.client, q);
      var original := Original(r.up, |r.far.gotByServer|, q);
      r.(far := far, near := r.near.(client := client, sentByClient := r.near.sentByClient + [original]))
  }

  function AfterMove(r: Relay, m: Move): Relay
    requires CanMove(r, m)
  {
    match m
    case ServerStarts(key) => r.(near := Next(r.near, Sessions.ServerStarts(key)))
    case ServerPolls(net) => r.(near := Next(r.near, Sessions.ServerPolls(net)))
    case ProxyStarts(key) => r.(far := Next(r.far, Sessions.ServerStarts(key)))
    case ClientPolls(net) => r.(far := Next(r.far, Sessions.ClientPolls(net)))
    case ServerSends(p) =>
      var (server, failure) := SendPacket(r.near.server, p);
      if failure.Some? then r.(near := r.near.(server := server))
      else
        r.(near := r.near.(server := server, sentByServer := r.near.sentByServer + [Seen(r.near.client.registry, p)]),
           down := r.down + [p])
    case ClientSends(p) =>
      var (client, failure) := SendPacket(r.far.client, p);
      if failure.Some? then r.(far := r.far.(client := client))
      else
        r.(far := r.far.(client := client, sentByClient := r.far.sentByClient + [Seen(r.far.server.registry, p)]),
           up := r.up + [p])
    case ProxyPollsServer(net) => RelayDown(r, net)
    case ProxyPollsClient(net) => RelayUp(r, net)
  }

  predicate Moves(r: Relay, ms: seq<Move>)
    decreases |ms|
  {
    ms == [] || (CanMove(r, ms[0]) && Moves(AfterMove(r, ms[0]), ms[1..]))
  }

  function AfterMoves(r: Relay, ms: seq<Move>): Relay
    requires Moves(r, ms)
    decreases |ms|
  {
    if ms == [] then r else AfterMoves(AfterMove(r, ms[0]), ms[1..])
  }

  /** A server, a proxy with its two ends, and a client, none of which has done anything. */
  function FreshRelay(server: Registry, near: Registry, far: Registry, client: Registry): Relay {
    Relay(Initial(near, server), Initial(client, far), [], [])
  }

  // ---------------------------------------------------------------- the invariant

  /** One direction: the first session carries what the proxy sees of the packets, the second what it has relayed. */
  predicate Joined(sent: seq<Packet>, via: Registry, to: Registry, sentFirst: seq<Packet>, gotFirst: seq<Packet>,
                   sentSecond: seq<Packet>) {
    && (forall p :: p in sent ==> Deliverable(to, p))
    && sentFirst == SeenAll(via, sent)
    && gotFirst <= sentFirst
    && sentSecond == sent[..|gotFirst|]
  }

  predicate RelayInvariant(r: Relay) {
    && Invariant(r.near) && Invariant(r.far)
    && Joined(r.down, r.near.client.registry, r.far.client.registry,
              r.near.sentByServer, r.near.gotByClient, r.far.sentByServer)
    && Joined(r.up, r.far.server.registry, r.near.server.registry,
              r.far.sentByClient, r.far.gotByServer, r.near.sentByClient)
  }

  lemma JoinedSend(sent: seq<Packet>, via: Registry, to: Registry, first: seq<Packet>, got: seq<Packet>,
                   second: seq<Packet>, p: Packet)
    requires Joined(sent, via, to, first, got, second) && Deliverable(to, p)
    ensures Joined(sent + [p], via, to, first + [Seen(via, p)], got, second)
  {
    hide Seen, Payload, Understood;
    assert forall q :: q in sent + [p] ==> q in sent || q == p;
    assert SeenAll(via, sent + [p]) == SeenAll(via, sent) + [Seen(via, p)];
    assert (sent + [p])[..|got|] == sent[..|got|];
  }

  /** What the proxy was given is what it sees of the next packet. */
  lemma JoinedGive(sent: seq<Packet>, via: Registry, to: Registry, first: seq<Packet>, got: seq<Packet>,
                   second: seq<Packet>, q: Packet)
    requires Joined(sent, via, to, first, got, second) && got + [q] <= first
    ensures |got| < |sent| && Deliverable(to, sent[|got|]) && q == Seen(via, sent[|got|])
    ensures Joined(sent, via, to, first, got + [q], second + [sent[|got|]])
  {
    hide Seen, Payload, Understood;
    assert (got + [q])[|got|] == q;
    assert sent[|got|] in sent;
  }

  /** No action of a session changes what its sides understand. */
  lemma RegistriesStay(s: System, a: Action)
    requires Enabled(s, a)
    ensures Next(s, a).client.registry == s.client.registry && Next(s, a).server.registry == s.server.registry
  {
    hide PollNext, Frame;
    match a
    case ServerPolls(net) => RegistryIsFixed(s.server, net);
    case ClientPolls(net) => RegistryIsFixed(s.client, net);
    case _ =>
  }

  lemma NearPollGives(s: System, net: Net)
    requires Invariant(s) && Enabled(s, Action.ClientPolls(net))
    ensures var got := if s.clientStarted then GivenBy(PollNext(s.client, net).item) else [];
            var s' := Next(s, Action.ClientPolls(net));
            && s'.gotByClient == s.gotByClient + got && s'.sentByServer == s.sentByServer
            && s'.sentByClient == s.sentByClient && s'.gotByServer == s.gotByServer
            && s.gotByClient + got <= s.sentByServer
  {
    hide PollNext, DataOf;
    ActionKeepsInvariant(s, Action.ClientPolls(net));
    InvariantIsFifo(Next(s, Action.ClientPolls(net)));
    hide Invariant;
    assert s.gotByClient + [] == s.gotByClient;
  }

  lemma FarPollGives(s: System, net: Net)
    requires Invariant(s) && Enabled(s, Action.ServerPolls(net))
    ensures var got := GivenBy(PollNext(s.server, net).item);
            var s' := Next(s, Action.ServerPolls(net));
            && s'.gotByServer == s.gotByServer + got && s'.sentByClient == s.sentByClient
            && s'.sentByServer == s.sentByServer && s'.gotByClient == s.gotByClient
            && s.gotByServer + got <= s.sentByClient
  {
    hide PollNext, DataOf;
    ActionKeepsInvariant(s, Action.ServerPolls(net));
    InvariantIsFifo(Next(s, Action.ServerPolls(net)));
    hide Invariant;
  }

  lemma OtherMovesKeepInvariant(r: Relay, m: Move)
    requires RelayInvariant(r) && CanMove(r, m)
    requires m.ServerStarts? || m.ProxyStarts? || m.ServerPolls? || m.ClientPolls?
    ensures RelayInvariant(AfterMove(r, m))
  {
    hide Invariant, Joined, PollNext, DataOf, StartServer, Frame;
    match m
    case ServerStarts(key) =>
      ActionKeepsInvariant(r.near, Action.ServerStarts(key));
      RegistriesStay(r.near, Action.ServerStarts(key));
    case ProxyStarts(key) =>
      ActionKeepsInvariant(r.far, Action.ServerStarts(key));
      RegistriesStay(r.far, Action.ServerStarts(key));
    case ServerPolls(net) =>
      FarPollGives(r.near, net);
      ActionKeepsInvariant(r.near, Action.ServerPolls(net));
      RegistriesStay(r.near, Action.ServerPolls(net));
    case ClientPolls(net) =>
      NearPollGives(r.far, net);
      ActionKeepsInvariant(r.far, Action.ClientPolls(net));
      RegistriesStay(r.far, Action.ClientPolls(net));
  }

  lemma SendsKeepRelay(r: Relay, m: Move)
    requires RelayInvariant(r) && CanMove(r, m) && (m.ServerSends? || m.ClientSends?)
    ensures RelayInvariant(AfterMove(r, m))
  {
    hide Invariant, Joined, Frame, Payload, Understood, Seen;
    if m.ServerSends? {
      var via := r.near.client.registry;
      SeenIsSentAlike(r.near.server, via, m.p);
      var a := Action.ServerSends(Seen(via, m.p));
      ActionKeepsInvariant(r.near, a);
      RegistriesStay(r.near, a);
      if Payload(m.p).Ok? {
        JoinedSend(r.down, via, r.far.client.registry, r.near.sentByServer, r.near.gotByClient, r.far.sentByServer, m.p);
      }
    } else {
      var via := r.far.server.registry;
      SeenIsSentAlike(r.far.client, via, m.p);
      var a := Action.ClientSends(Seen(via, m.p));
      ActionKeepsInvariant(r.far, a);
      RegistriesStay(r.far, a);
      if Payload(m.p).Ok? {
        JoinedSend(r.up, via, r.near.server.registry, r.far.sentByClient, r.far.gotByServer, r.near.sentByClient, m.p);
      }
    }
  }

  lemma PollServerKeepsRelay(r: Relay, net: Net)
    requires RelayInvariant(r) && CanMove(r, ProxyPollsServer(net))
    ensures RelayInvariant(AfterMove(r, ProxyPollsServer(net)))
  {
    hide Invariant, Joined, Frame, Payload, Understood, Seen, PollNext, DataOf;
    var a := Action.ClientPolls(net);
    NearPollGives(r.near, net);
    ActionKeepsInvariant(r.near, a);
    RegistriesStay(r.near, a);
    var got := r.near.gotByClient;
    var given := GivenBy(PollNext(r.near.client, net).item);
    assert got + [] == got;
    if r.near.clientStarted && given != [] {
      assert given == [given[0]];
      GivenCanBeForwarded(r.near.client, net);
      JoinedGive(r.down, r.near.client.registry, r.far.client.registry,
                 r.near.sentByServer, got, r.far.sentByServer, given[0]);
      var p := r.down[|got|];
      SeenIsSentAlike(r.far.server, r.near.client.registry, p);
      ActionKeepsInvariant(r.far, Action.ServerSends(p));
      RegistriesStay(r.far, Action.ServerSends(p));
    }
  }

  lemma PollClientKeepsRelay(r: Relay, net: Net)
    requires RelayInvariant(r) && CanMove(r, ProxyPollsClient(net))
    ensures RelayInvariant(AfterMove(r, ProxyPollsClient(net)))
  {
    hide Invariant, Joined, Frame, Payload, Understood, Seen, PollNext, DataOf;
    var a := Action.ServerPolls(net);
    FarPollGives(r.far, net);
    ActionKeepsInvariant(r.far, a);
    RegistriesStay(r.far, a);
    var got := r.far.gotByServer;
    var given := GivenBy(PollNext(r.far.server, net).item);
    assert got + [] == got;
    if given != [] {
      assert given == [given[0]];
      GivenCanBeForwarded(r.far.server, net);
      JoinedGive(r.up, r.far.server.registry, r.near.server.registry,
                 r.far.sentByClient, got, r.near.sentByClient, given[0]);
      var p := r.up[|got|];
      SeenIsSentAlike(r.near.client, r.far.server.registry, p);
      ActionKeepsInvariant(r.near, Action.ClientSends(p));
      RegistriesStay(r.near, Action.ClientSends(p));
    }
  }

  lemma MoveKeepsRelay(r: Relay, m: Move)
    requires RelayInvariant(r) && CanMove(r, m)
    ensures RelayInvariant(AfterMove(r, m))
  {
    hide RelayInvariant, AfterMove;
    match m
    case ServerSends(_) => SendsKeepRelay(r, m);
    case ClientSends(_) => SendsKeepRelay(r, m);
    case ProxyPollsServer(net) => PollServerKeepsRelay(r, net);
    case ProxyPollsClient(net) => PollClientKeepsRelay(r, net);
    case _ => OtherMovesKeepInvariant(r, m);
  }

  // ---------------------------------------------------------------- the theorems

  lemma {:induction false} MovesKeepRelay(r: Relay, ms: seq<Move>)
    requires RelayInvariant(r) && Moves(r, ms)
    ensures RelayInvariant(AfterMoves(r, ms))
    decreases |ms|
  {
    hide RelayInvariant, AfterMove, CanMove;
    if ms != [] {
      MoveKeepsRelay(r, ms[0]);
      MovesKeepRelay(AfterMove(r, ms[0]), ms[1..]);
    }
  }

  /** A state that some run of a fresh relay reaches. */
  ghost predicate RelayReachable(r: Relay) {
    exists start: Relay, ms: seq<Move> :: IsFresh(start) && Moves(start, ms) && AfterMoves(start, ms) == r
  }

  ghost predicate IsFresh(r: Relay) {
    && r == FreshRelay(r.near.server.registry, r.near.client.registry, r.far.server.registry, r.far.client.registry)
    && KnowsInit(r.near.client.registry) && KnowsInit(r.far.client.registry)
  }

  lemma RelayReachableIsInvariant(r: Relay)
    requires RelayReachable(r)
    ensures RelayInvariant(r)
  {
    hide AfterMove, CanMove;
    var start: Relay, ms: seq<Move> :| IsFresh(start) && Moves(start, ms) && AfterMoves(start, ms) == r;
    MovesKeepRelay(start, ms);
  }

  /**
    Through the proxy as without it: whatever the networks on both sides do, the client was given a prefix of what
    the server sent, and the server a prefix of what the client sent, packets the proxy does not know included.
   */
  lemma RelayIsFifo(r: Relay)
    requires RelayReachable(r)
    ensures r.far.gotByClient <= r.down && r.near.gotByServer <= r.up
  {
    hide RelayReachable, Invariant, SeenAll, Deliverable;
    RelayReachableIsInvariant(r);
    InvariantIsFifo(r.near);
    InvariantIsFifo(r.far);
  }

  /** Once both sessions have drained in one direction, everything sent in it has come through. */
  lemma DrainedRelayDelivered(r: Relay)
    requires RelayReachable(r)
    ensures DrainedToClient(r.near) && DrainedToClient(r.far) ==> r.far.gotByClient == r.down
    ensures DrainedToServer(r.far) && DrainedToServer(r.near) ==> r.near.gotByServer == r.up
  {
    hide RelayReachable, Invariant, DrainedToClient, DrainedToServer, Deliverable;
    RelayReachableIsInvariant(r);
    InvariantDrained(r.near);
    InvariantDrained(r.far);
  }
}
