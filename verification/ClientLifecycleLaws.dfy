/** What holds of a client over its whole life. */
module ClientLifecycleLaws {
  import opened Wrappers
  import opened Bytes
  import opened Cipher
  import opened Packets
  import opened Wire
  import opened PollLaws
  import opened ClientLifecycle

  function Rank(s: ConnectionState): nat {
    match s
    case Open => 0
    case Closing(_) => 1
    case Closed => 2
  }

  /** Stored callbacks are all different, wait together, and are sent together or never. */
  predicate CallbacksAccounted(c: ClientState) {
    && (forall i :: 0 <= i < |c.stored| ==> c.stored[i] == i)
    && match c.state
       case Open => c.stored == [] && c.fired == []
       case Closing(callbacks) => callbacks != [] && c.stored == callbacks && c.fired == []
       case Closed => c.fired == c.stored || c.fired == []
  }

  /** Bytes taken by the socket and bytes still buffered are the frames of everything that was queued. */
  predicate BytesAccounted(c: ClientState) {
    c.accepted + c.conn.send == c.framed
  }

  /** A callback is sent only when everything queued was taken by the socket, or the connection is lost. */
  predicate FiresTruthfully(c: ClientState) {
    c.fired != [] ==> c.conn.disconnected || c.accepted == c.framed
  }

  predicate Sound(c: ClientState) {
    CallbacksAccounted(c) && BytesAccounted(c) && FiresTruthfully(c)
  }

  /**
    `c'` may come after `c`: the state does not move backwards, records only grow, nothing is queued once the client
    is not open, nothing is sent or stored once it is closed, and a dead connection stays dead and takes nothing.
   */
  predicate MayFollow(c: ClientState, c': ClientState) {
    && Rank(c.state) <= Rank(c'.state)
    && c.framed <= c'.framed && c.accepted <= c'.accepted && c.stored <= c'.stored && c.fired <= c'.fired
    && (!c.state.Open? ==> c'.framed == c.framed)
    && (c.state.Closed? ==> c'.stored == c.stored && c'.fired == c.fired)
    && (c.conn.disconnected ==> c'.conn.disconnected && c'.accepted == c.accepted)
    && (Sound(c) ==> Sound(c'))
  }

  lemma FollowsTwice(a: ClientState, b: ClientState, c: ClientState)
    requires MayFollow(a, b) && MayFollow(b, c)
    ensures MayFollow(a, c)
  {
    hide Sound;
  }

  lemma EnqueueFollows(c: ClientState, p: AnyPacket)
    requires c.state.Open?
    ensures MayFollow(c, Enqueue(c, p).0) && Enqueue(c, p).0.state == c.state
    ensures Enqueue(c, p).1.Some? ==> !Enqueue(c, p).1.value.ConnectionClosed?
  {
    hide Frame;
    var (c', failure) := Enqueue(c, p);
    if failure.None? {
      var frame := Frame(c.conn.cipher.encrypt, p).value.0;
      assert c.accepted + (c.conn.send + frame) == c.accepted + c.conn.send + frame;
    } else {
      assert c.framed + [] == c.framed;
    }
  }

  lemma SendAlertFollows(c: ClientState, text: string)
    requires IsAscii(text)
    ensures MayFollow(c, SendAlert(c, text))
  {
    hide Enqueue, MayFollow;
    if c.state.Open? {
      EnqueueFollows(c, Alert(text));
    } else {
      FollowsItself(c);
    }
  }

  lemma FollowsItself(c: ClientState)
    ensures MayFollow(c, c)
  {
  }

  lemma DisconnectFollows(c: ClientState, flush: bool)
    ensures MayFollow(c, Disconnect(c, flush))
  {
  }

  /** Closing sends the callbacks, rightly so if the connection is lost or the buffer is empty. */
  lemma CloseFollows(c: ClientState)
    requires c.conn.disconnected || c.conn.send == []
    ensures MayFollow(c, Close(c))
  {
    assert c.accepted + [] == c.accepted;
  }

  lemma ProtocolFailureFollows(c: ClientState, e: ProtocolError)
    requires e.ConnectionClosed? ==> c.conn.disconnected
    ensures MayFollow(c, ProtocolFailure(c, e))
  {
    hide ProtocolText, HandlingText, MayFollow, Close, Disconnect, SendAlert;
    if e.ConnectionClosed? {
      CloseFollows(c);
    } else {
      var text := ProtocolText();
      var c' := SendAlert(c, text);
      SendAlertFollows(c, text);
      DisconnectFollows(c', true);
      FollowsTwice(c, c', Disconnect(c', true));
    }
  }

  lemma HandlerFailureFollows(c: ClientState)
    ensures MayFollow(c, HandlerFailure(c))
  {
    hide ProtocolText, HandlingText, MayFollow, Disconnect, SendAlert;
    var text := HandlingText();
    var c' := SendAlert(c, text);
    SendAlertFollows(c, text);
    DisconnectFollows(c', true);
    FollowsTwice(c, c', Disconnect(c', true));
  }

  lemma PerformFollows(c: ClientState, op: Op)
    ensures MayFollow(c, Perform(c, op))
  {
    hide MayFollow, Enqueue, ProtocolFailure, Disconnect;
    match op
    case DisconnectOp(flush) => DisconnectFollows(c, flush);
    case SendOp(p) =>
      if c.state.Open? {
        EnqueueFollows(c, p);
        var (c', failure) := Enqueue(c, p);
        if failure.Some? {
          ProtocolFailureFollows(c', failure.value);
          FollowsTwice(c, c', ProtocolFailure(c', failure.value));
        }
      } else {
        FollowsItself(c);
      }
  }

  lemma {:induction false} PerformAllFollows(c: ClientState, ops: seq<Op>)
    ensures MayFollow(c, PerformAll(c, ops))
  {
    hide MayFollow, Perform;
    FollowsItself(c);
    if ops != [] {
      var before := PerformAll(c, ops[..|ops| - 1]);
      PerformAllFollows(c, ops[..|ops| - 1]);
      PerformFollows(before, ops[|ops| - 1]);
      FollowsTwice(c, before, Perform(before, ops[|ops| - 1]));
    }
  }

  lemma {:induction false} ReactAllFollows(c: ClientState, rs: seq<Reaction>)
    ensures MayFollow(c, ReactAll(c, rs))
  {
    hide MayFollow, PerformAll, HandlerFailure;
    FollowsItself(c);
    if rs != [] {
      var r := rs[|rs| - 1];
      var before := ReactAll(c, rs[..|rs| - 1]);
      var done := PerformAll(before, r.ops);
      ReactAllFollows(c, rs[..|rs| - 1]);
      PerformAllFollows(before, r.ops);
      HandlerFailureFollows(done);
      FollowsTwice(c, before, done);
      FollowsTwice(c, done, HandlerFailure(done));
    }
  }

  lemma PollConnectionFollows(c: ClientState, net: Net)
    ensures var (c', item, _) := PollConnection(c, net);
            MayFollow(c, c') && c'.state == c.state && c'.fired == c.fired
  {
    hide PollNext;
    var polled := PollNext(c.conn, net);
    PollSplitsSend(c.conn, net);
    StepsEnd(c.conn, net);
    assert c.accepted + polled.accepted + polled.conn.send == c.accepted + c.conn.send;
    if c.accepted == c.framed && BytesAccounted(c) {
      assert c.conn.send == [];
    }
  }

  /** The loop over the packets, and how it ends: a lost connection ends it with the client closed. */
  lemma {:induction false} PacketLoopFollows(c: ClientState, net: Net, k: nat, respond: nat -> seq<Reaction>)
    ensures var loop := PacketLoop(c, net, k, respond);
            && MayFollow(c, loop.client)
            && (loop.ended <==> loop.client.conn.disconnected)
            && (loop.ended ==> loop.client.state.Closed?)
    decreases !c.conn.disconnected, |c.conn.recv| + Weight(net.incoming)
  {
    hide MayFollow, PollConnection, ReactAll, ProtocolFailure, Weight;
    PollConnectionFollows(c, net);
    PollResult(c, net);
    var (c', item, net') := PollConnection(c, net);
    match item {
      case Some(Ready(Ok(_))) =>
        var next := ReactAll(c', respond(k));
        ReactAllFollows(c', respond(k));
        PacketLoopFollows(next, net', k + 1, respond);
        FollowsTwice(c, c', next);
        FollowsTwice(c, next, PacketLoop(next, net', k + 1, respond).client);
      case Some(Ready(Err(e))) =>
        var next := ProtocolFailure(c', e);
        ProtocolFailureFollows(c', e);
        PacketLoopFollows(next, net', k, respond);
        FollowsTwice(c, c', next);
        FollowsTwice(c, next, PacketLoop(next, net', k, respond).client);
      case Some(Pending) =>
      case None =>
        CloseFollows(c');
        FollowsTwice(c, c', Close(c'));
    }
  }

  lemma PollResult(c: ClientState, net: Net)
    ensures var (c', item, net') := PollConnection(c, net);
            match item
            case Some(Ready(Ok(_))) =>
              && !c.conn.disconnected && !c'.conn.disconnected
              && |c'.conn.recv| + Weight(net'.incoming) < |c.conn.recv| + Weight(net.incoming)
            case Some(Ready(Err(_))) => !c.conn.disconnected && c'.conn.disconnected
            case Some(Pending) => !c'.conn.disconnected
            case None => c.conn.disconnected && c'.conn.disconnected
  {
    hide PollNext, Weight;
    StepsEnd(c.conn, net);
  }

  lemma PollClientFollows(c: ClientState, turn: seq<Reaction>, respond: nat -> seq<Reaction>, net: Net)
    ensures MayFollow(c, PollClient(c, turn, respond, net).0)
    ensures PollClient(c, turn, respond, net).1 ==> PollClient(c, turn, respond, net).0.state.Closed?
  {
    hide MayFollow, PacketLoop, ReactAll;
    var started := ReactAll(c, turn);
    ReactAllFollows(c, turn);
    if !started.state.Closed? {
      PacketLoopFollows(started, net, 0, respond);
      var loop := PacketLoop(started, net, 0, respond);
      FollowsTwice(c, started, loop.client);
      if !loop.ended && loop.client.state.Closing? && loop.client.conn.send == [] {
        CloseFollows(loop.client);
        FollowsTwice(c, loop.client, Close(loop.client));
      }
    }
  }

  // ---------------------------------------------------------------- whole lives

  /** What happens to a client: it is polled, or somebody else uses it. */
  datatype Act = Polls(turn: seq<Reaction>, respond: nat -> seq<Reaction>, net: Net) | Uses(op: Op)

  function Step(c: ClientState, act: Act): ClientState {
    match act
    case Polls(turn, respond, net) => PollClient(c, turn, respond, net).0
    case Uses(op) => Perform(c, op)
  }

  function After(c: ClientState, acts: seq<Act>): ClientState
    decreases |acts|
  {
    if acts == [] then c else After(Step(c, acts[0]), acts[1..])
  }

  /** Over a whole life, whatever the components, the callers and the network do. */
  lemma {:induction false} LifeMovesForward(c: ClientState, acts: seq<Act>)
    ensures MayFollow(c, After(c, acts))
    decreases |acts|
  {
    hide MayFollow, PollClient, Perform;
    if acts == [] {
      FollowsItself(c);
    } else {
      var next := Step(c, acts[0]);
      match acts[0] {
        case Polls(turn, respond, net) => PollClientFollows(c, turn, respond, net);
        case Uses(op) => PerformFollows(c, op);
      }
      LifeMovesForward(next, acts[1..]);
      FollowsTwice(c, next, After(next, acts[1..]));
    }
  }

  function NewClient(conn: Conn): ClientState {
    ClientState(conn, Open, [], [], conn.send, [])
  }

  /**
    From a new client: callbacks are numbered apart, and are sent once and all of them together or never; a callback
    that was sent means that every byte queued was taken by the socket, unless the connection was lost.
   */
  lemma CallbacksFireTruthfully(conn: Conn, acts: seq<Act>)
    ensures var c := After(NewClient(conn), acts);
            && (c.fired == [] || c.fired == c.stored)
            && (forall i :: 0 <= i < |c.stored| ==> c.stored[i] == i)
            && (c.fired != [] ==> c.state.Closed? && (c.conn.disconnected || c.accepted == c.framed))
            && c.accepted + c.conn.send == c.framed
  {
    hide After;
    LifeMovesForward(NewClient(conn), acts);
    assert [] + conn.send == conn.send;
    assert Sound(NewClient(conn));
  }

  /**
    The flush: a client that is closing, whose buffer empties in a poll that does not lose the connection, is closed
    by that poll, with every byte taken and every stored callback sent, each once.
   */
  lemma FlushCompletes(c: ClientState, turn: seq<Reaction>, respond: nat -> seq<Reaction>, net: Net)
    requires Sound(c)
    requires var started := ReactAll(c, turn);
             var loop := PacketLoop(started, net, 0, respond);
             !started.state.Closed? && !loop.ended && loop.client.state.Closing? && loop.client.conn.send == []
    ensures var (c', ready) := PollClient(c, turn, respond, net);
            && c'.state.Closed? && !ready
            && c'.accepted == c'.framed && c'.fired == c'.stored && c'.fired != []
  {
    hide PacketLoop, ReactAll;
    var started := ReactAll(c, turn);
    ReactAllFollows(c, turn);
    PacketLoopFollows(started, net, 0, respond);
    var loop := PacketLoop(started, net, 0, respond);
    assert loop.client.accepted + [] == loop.client.accepted;
  }

  // ---------------------------------------------------------------- the flush from the caller's side

  /** Components that do not disconnect without a flush. Whatever else they do, a closing client stays as it is. */
  predicate Patient(rs: seq<Reaction>) {
    forall r :: r in rs ==> DisconnectOp(false) !in r.ops
  }

  lemma {:induction false} PatientOpsKeepClosing(c: ClientState, ops: seq<Op>)
    requires c.state.Closing? && DisconnectOp(false) !in ops
    ensures PerformAll(c, ops).state.Closing? && PerformAll(c, ops).conn == c.conn
  {
    hide Enqueue;
    if ops != [] {
      PatientOpsKeepClosing(c, ops[..|ops| - 1]);
      assert ops[|ops| - 1] in ops;
    }
  }

  lemma {:induction false} PatienceKeepsClosing(c: ClientState, rs: seq<Reaction>)
    requires c.state.Closing? && Patient(rs)
    ensures ReactAll(c, rs).state.Closing? && ReactAll(c, rs).conn == c.conn
  {
    hide PerformAll, Enqueue;
    if rs != [] {
      var before, r := ReactAll(c, rs[..|rs| - 1]), rs[|rs| - 1];
      PatienceKeepsClosing(c, rs[..|rs| - 1]);
      assert r in rs;
      PatientOpsKeepClosing(before, r.ops);
    }
  }

  /** One poll empties the buffer if the socket takes enough. */
  lemma PollFlushes(c: ClientState, net: Net)
    requires if c.conn.disconnected then c.conn.send == [] else |c.conn.send| <= Offered(net.outgoing)
    ensures PollConnection(c, net).0.conn.send == []
  {
    hide ReadLoop, WriteLoop;
    if !c.conn.disconnected {
      FlushEmptiesIff(c.conn.send, net.outgoing);
      WriteLoopOnly(c.conn, net);
      var n := WriteLoop(c.conn.send, net.outgoing).0;
      SendSurvivesReading(EnsureSpace(c.conn.(send := c.conn.send[n..])), net.incoming);
    }
  }

  /** Closed, with everything taken by the socket and every stored callback sent. */
  predicate Settled(c: ClientState) {
    c.state.Closed? && c.accepted == c.framed && c.fired == c.stored && c.fired != []
  }

  lemma ClosingSettles(c: ClientState)
    requires Sound(c) && c.state.Closing? && c.conn.send == []
    ensures Settled(Close(c)) && Sound(Close(c))
  {
    assert c.accepted + [] == c.accepted;
    assert [] + c.stored == c.stored;
  }

  /** On its way out: closing with an empty buffer, or settled over a connection that was lost. */
  predicate AlmostDone(c: ClientState) {
    Sound(c) && c.conn.send == [] && (c.state.Closing? || (Settled(c) && c.conn.disconnected))
  }

  /** A client that is not open gets no alert. */
  lemma FailureWithoutAlert(c: ClientState, e: ProtocolError)
    requires !c.state.Open?
    ensures ProtocolFailure(c, e) == if e.ConnectionClosed? then Close(c) else Disconnect(c, true)
  {
    hide Enqueue, Close, Disconnect;
  }

  lemma FailureIsAlmostDone(c: ClientState, e: ProtocolError)
    requires AlmostDone(c) && c.conn.disconnected
    ensures AlmostDone(ProtocolFailure(c, e)) && ProtocolFailure(c, e).conn == c.conn
  {
    hide Sound, ProtocolFailure;
    FailureWithoutAlert(c, e);
    if e.ConnectionClosed? {
      if c.state.Closing? {
        ClosingSettles(c);
      }
    } else {
      DisconnectFollows(c, true);
    }
  }

  lemma {:induction false} LoopFinishesFlush(c: ClientState, net: Net, k: nat, respond: nat -> seq<Reaction>)
    requires Sound(c) && (c.state.Closing? || (Settled(c) && c.conn.disconnected))
    requires forall i :: Patient(respond(i))
    requires if c.conn.disconnected then c.conn.send == [] else |c.conn.send| <= Offered(net.outgoing)
    ensures var loop := PacketLoop(c, net, k, respond);
            if loop.ended then Settled(loop.client)
            else Sound(loop.client) && loop.client.state.Closing? && loop.client.conn.send == []
    decreases !c.conn.disconnected, |c.conn.recv| + Weight(net.incoming)
  {
    hide Sound, PollConnection, ReactAll, ProtocolFailure, Weight, Settled, Close, Offered, Patient;
    PollConnectionFollows(c, net);
    PollResult(c, net);
    PollFlushes(c, net);
    var (c', item, net') := PollConnection(c, net);
    match item {
      case Some(Ready(Ok(_))) =>
        ReactAllFollows(c', respond(k));
        PatienceKeepsClosing(c', respond(k));
        LoopFinishesFlush(ReactAll(c', respond(k)), net', k + 1, respond);
      case Some(Ready(Err(e))) =>
        FailureIsAlmostDone(c', e);
        LoopFinishesFlush(ProtocolFailure(c', e), net', k, respond);
      case Some(Pending) =>
      case None => EndSettles(c, net);
    }
  }

  lemma EndSettles(c: ClientState, net: Net)
    requires c.conn.disconnected && AlmostDone(c)
    ensures Settled(Close(PollConnection(c, net).0))
  {
    assert c.accepted + [] == c.accepted;
    if c.state.Closing? {
      ClosingSettles(c);
    }
  }

  /**
    A closing client over a live connection is closed by its next poll if the socket takes the buffer then, whatever
    arrives and whatever the components do short of disconnecting without a flush.
   */
  lemma NextPollCloses(c: ClientState, turn: seq<Reaction>, respond: nat -> seq<Reaction>, net: Net)
    requires Sound(c) && c.state.Closing? && !c.conn.disconnected
    requires Patient(turn) && forall i :: Patient(respond(i))
    requires |c.conn.send| <= Offered(net.outgoing)
    ensures Settled(PollClient(c, turn, respond, net).0)
  {
    hide Sound, PacketLoop, ReactAll, Settled, Close, Offered, Patient;
    ReactAllFollows(c, turn);
    PatienceKeepsClosing(c, turn);
    var started := ReactAll(c, turn);
    LoopFinishesFlush(started, net, 0, respond);
    var loop := PacketLoop(started, net, 0, respond);
    if !loop.ended {
      ClosingSettles(loop.client);
    }
  }

  /**
    What the future of a flushing disconnect, which is ready at once, says about the bytes: at that moment they have
    all been taken exactly if the buffer is clear.
   */
  lemma ReadyFutureIsTrueIff(c: ClientState)
    requires Sound(c)
    ensures var c' := Disconnect(c, true);
            c'.accepted == c'.framed <==> c.conn.send == []
  {
    if c.conn.send == [] {
      assert c.accepted + [] == c.accepted;
    }
  }

  /** A client with one unwritten byte is told to disconnect: its future is ready and nothing was taken. */
  lemma FutureIsReadyTooSoon(registry: Registry)
    ensures var c := Disconnect(NewClient(Conn(true, PLAIN, false, [], 0, [7], registry)), true);
            c.accepted == [] && c.framed == [7] && c.state.Closing?
  {
  }

  // ---------------------------------------------------------------- what gets lost

  /** Disconnecting without a flush drops the callbacks that wait: none of them is ever sent. */
  lemma AbortNeverFires(c: ClientState, acts: seq<Act>)
    requires Sound(c) && c.state.Closing?
    ensures After(Disconnect(c, false), acts).fired == []
  {
    hide After;
    LifeMovesForward(Disconnect(c, false), acts);
  }

  /**
    Exactly when it loses none, in any later run: the client was open, or closed with its callbacks sent already.
    A client that is closing always loses them.
   */
  lemma AbortLosesNothingIff(c: ClientState, acts: seq<Act>)
    requires Sound(c)
    ensures var last := After(Disconnect(c, false), acts);
            last.fired == last.stored <==> c.state.Open? || (c.state.Closed? && c.fired == c.stored)
  {
    hide After;
    LifeMovesForward(Disconnect(c, false), acts);
  }

  /**
    An alert about a protocol error never leaves: it is queued, but the connection is already dead, the same poll
    closes the client, and nothing is taken from its buffer afterwards.
   */
  lemma ProtocolAlertIsLost(c: ClientState, net: Net, k: nat, respond: nat -> seq<Reaction>, acts: seq<Act>, e: ProtocolError)
    requires c.state.Open? && !e.ConnectionClosed? && PollConnection(c, net).1 == Some(Ready(Err(e)))
    ensures var queued := ProtocolFailure(PollConnection(c, net).0, e);
            var loop := PacketLoop(c, net, k, respond);
            && loop.ended && loop.client.state.Closed?
            && |queued.framed| > |c.framed|
            && After(loop.client, acts).accepted == PollConnection(c, net).0.accepted
  {
    hide ProtocolText, HandlingText, After, PollConnection, Enqueue, Sound, Rank, SendAlert, Weight, ReactAll, Close;
    var (c', _, net') := PollConnection(c, net);
    PollConnectionFollows(c, net);
    PollResult(c, net);
    var queued := ProtocolFailure(c', e);
    AlertHasBytes(c', ProtocolText());
    var loop := PacketLoop(c, net, k, respond);
    assert loop == PacketLoop(queued, net', k, respond);
    PacketLoopFollows(queued, net', k, respond);
    LifeMovesForward(loop.client, acts);
  }

  /** Such an input: eight bytes that announce a frame of five. Nothing is ever written, though an alert was queued. */
  lemma FiveIsTooSmall(registry: Registry, k: nat, respond: nat -> seq<Reaction>, acts: seq<Act>)
    ensures var c := NewClient(Conn(true, PLAIN, false, [], 0, [], registry));
            var net := Net([Data([0, 0, 0, 5, 0, 0, 0, 0])], []);
            var (c', item, _) := PollConnection(c, net);
            && item == Some(Ready(Err(PacketTooSmall(5))))
            && ProtocolFailure(c', PacketTooSmall(5)).framed != []
            && After(PacketLoop(c, net, k, respond).client, acts).accepted == []
  {
    var conn := Conn(true, PLAIN, false, [], 0, [], registry);
    var c := NewClient(conn);
    var net := Net([Data([0, 0, 0, 5, 0, 0, 0, 0])], []);
    FiveIsRefused(conn, net);
    assert PollConnection(c, net).1 == Some(Ready(Err(PacketTooSmall(5)))) && PollConnection(c, net).0.accepted == [];
    ProtocolAlertIsLost(c, net, k, respond, acts, PacketTooSmall(5));
  }

  lemma FiveIsRefused(conn: Conn, net: Net)
    requires !conn.disconnected && conn.recv == [] && conn.recvLen == 0 && conn.send == []
    requires net.incoming == [Data([0, 0, 0, 5, 0, 0, 0, 0])]
    ensures PollNext(conn, net).item == Some(Ready(Err(PacketTooSmall(5)))) && PollNext(conn, net).accepted == []
  {
    var bytes: seq<byte> := [0, 0, 0, 5, 0, 0, 0, 0];
    var ready := EnsureSpace(conn);
    assert TryParse(ready) == (ready, Pending);
    assert bytes[..8] == bytes && net.incoming[1..] == [];
    assert SocketRead(net.incoming, 1024) == (IoReady(bytes), []);
    var full := ready.(recv := bytes);
    assert bytes[..4] == [0, 0, 0, 5];
    FiveReads();
    assert TryParse(full).1 == Ready(Err(PacketTooSmall(5)));
    assert [] + bytes == bytes;
    assert ReadLoop(full, []).1 == Ready(Err(PacketTooSmall(5)));
    ReadIsProgress(net.incoming, 1024);
    assert ReadLoop(ready, net.incoming) == ReadLoop(full, []);
  }

  lemma FiveReads()
    ensures FromBigEndian([0, 0, 0, 5]) == 5
  {
    assert Pow256(1) == 256 && forall b: byte :: FromBigEndian([b]) == b as nat;
    assert [0, 0, 0, 5] == ([0] + [0]) + [0] + [5];
    BigEndianWeight([0], [0]);
    BigEndianWeight([0] + [0], [0]);
    BigEndianWeight([0] + [0] + [0], [5]);
  }

  function NoReactions(): nat -> seq<Reaction> {
    _ => []
  }

  /**
    An error that is found while the connection lives, such as that of a packet that cannot be encoded, is different:
    the alert leaves in some later run exactly if the connection was alive when the error was handled.
   */
  lemma AlertCanLeaveIff(c: ClientState, e: ProtocolError)
    requires Sound(c) && c.state.Open? && !e.ConnectionClosed?
    ensures var queued := ProtocolFailure(c, e);
            && |queued.framed| > |c.framed|
            && ((exists acts :: After(queued, acts).accepted == queued.framed) <==> !c.conn.disconnected)
  {
    hide ProtocolText, HandlingText, After, Enqueue, SendAlert, PollClient, Settled, Offered;
    var queued := ProtocolFailure(c, e);
    AlertHasBytes(c, ProtocolText());
    ProtocolFailureFollows(c, e);
    if c.conn.disconnected {
      forall acts
        ensures After(queued, acts).accepted != queued.framed
      {
        LifeMovesForward(queued, acts);
        assert c.accepted <= c.framed;
      }
    } else {
      AlertLeaves(queued);
    }
  }

  /** One poll with a socket that takes the whole buffer. */
  lemma AlertLeaves(queued: ClientState)
    requires Sound(queued) && queued.state.Closing? && !queued.conn.disconnected
    ensures exists acts :: After(queued, acts).accepted == queued.framed
  {
    hide Sound, PollClient;
    var net := Net([], [Accepts(|queued.conn.send|)]);
    var act := Polls([], NoReactions(), net);
    assert net.outgoing[1..] == [];
    NextPollCloses(queued, [], NoReactions(), net);
    PollClientFollows(queued, [], NoReactions(), net);
    assert [act][1..] == [];
    assert After(queued, [act]) == After(Step(queued, act), []);
    assert After(queued, [act]).accepted == queued.framed;
  }

  lemma AlertHasBytes(c: ClientState, text: string)
    requires c.state.Open? && IsAscii(text)
    ensures var c' := SendAlert(c, text);
            && |c'.framed| > |c.framed| && c'.accepted == c.accepted && c'.conn.disconnected == c.conn.disconnected
            && c'.state == c.state
  {
    hide Payload, Alert;
  }
}
