/**
  The life of a client on the server: open, closing once everything is flushed, closed. The connection inside is
  represented by its state; Connection.dfy proves the running connection against the functions used here.
 */
module ClientLifecycle {
  import opened Wrappers
  import opened Bytes
  import opened Codec
  import opened CodecLaws
  import opened Packets
  import opened Wire
  import opened PollLaws
  import Utf8

  datatype ConnectionState = Open | Closing(callbacks: seq<nat>) | Closed

  type AnyPacket = p: Packet | IsPacket(p) witness UnknownPacket(0, [])

  /**
    `stored` and `fired` are the disconnect callbacks that were ever stored and that were sent, by number; `framed`
    and `accepted` are the bytes of all frames that were queued and the bytes the socket took.
   */
  datatype ClientState = ClientState(
    conn: Conn,
    state: ConnectionState,
    stored: seq<nat>,
    fired: seq<nat>,
    framed: seq<byte>,
    accepted: seq<byte>)

  // ---------------------------------------------------------------- alerts

  const ALERT_ID: nat := 3972731980

  predicate IsAscii(s: string) {
    forall i :: 0 <= i < |s| ==> s[i] as int < 128
  }

  function Ascii(s: string): (bytes: seq<byte>)
    requires IsAscii(s)
    ensures |bytes| == |s| && forall i :: 0 <= i < |bytes| ==> bytes[i] < 128 && bytes[i] as int == s[i] as int
  {
    seq(|s|, i requires 0 <= i < |s| => s[i] as int as byte)
  }

  lemma {:induction false} AsciiIsText(s: seq<byte>)
    requires forall i :: 0 <= i < |s| ==> s[i] < 128
    ensures Utf8.IsText(s)
  {
    if s != [] {
      AsciiIsText(s[1..]);
      assert Utf8.IsCharacter(s[..1]);
    }
  }

  function ProtocolText(): (text: string)
    ensures IsAscii(text)
  {
    "Protocol error. Closing connection."
  }

  function HandlingText(): (text: string)
    ensures IsAscii(text)
  {
    "Handling error. Closing connection."
  }

  /** Alerts can always be encoded. */
  function Alert(text: string): (p: AnyPacket)
    requires IsAscii(text)
    ensures Payload(p).Ok?
  {
    var bytes := Ascii(text);
    AsciiIsText(bytes);
    FieldsOfOne(TString, VString(bytes));
    TypedPacket(ALERT_ID, [TString], [VString(bytes)])
  }

  // ---------------------------------------------------------------- the operations as functions

  /** Nothing an owner does to a client touches the receiving half of its connection. */
  predicate SameReceiver(c: Conn, c': Conn) {
    c' == c.(send := c'.send, cipher := c'.cipher) && c'.cipher.decrypt == c.cipher.decrypt
  }

  function Enqueue(c: ClientState, p: AnyPacket): (r: (ClientState, Option<ProtocolError>))
    ensures SameReceiver(c.conn, r.0.conn)
  {
    var (conn, failure) := Wire.SendPacket(c.conn, p);
    var frame := if failure.Some? then [] else Frame(c.conn.cipher.encrypt, p).value.0;
    (c.(conn := conn, framed := c.framed + frame), failure)
  }

  function SendAlert(c: ClientState, text: string): (c': ClientState)
    requires IsAscii(text)
    ensures SameReceiver(c.conn, c'.conn)
  {
    if c.state.Open? then Enqueue(c, Alert(text)).0 else c
  }

  function Disconnect(c: ClientState, flush: bool): (c': ClientState)
    ensures c'.conn == c.conn
  {
    if !flush then c.(state := Closed)
    else
      var callback := |c.stored|;
      match c.state
      case Open => c.(state := Closing([callback]), stored := c.stored + [callback])
      case Closing(callbacks) => c.(state := Closing(callbacks + [callback]), stored := c.stored + [callback])
      case Closed => c
  }

  function Close(c: ClientState): (c': ClientState)
    ensures c'.conn == c.conn
  {
    match c.state
    case Open => c.(state := Closed)
    case Closing(callbacks) => c.(state := Closed, fired := c.fired + callbacks)
    case Closed => c
  }

  function ProtocolFailure(c: ClientState, e: ProtocolError): (c': ClientState)
    ensures SameReceiver(c.conn, c'.conn)
  {
    if e.ConnectionClosed? then Close(c)
    else Disconnect(SendAlert(c, ProtocolText()), true)
  }

  function HandlerFailure(c: ClientState): (c': ClientState)
    ensures SameReceiver(c.conn, c'.conn)
  {
    Disconnect(SendAlert(c, HandlingText()), true)
  }

  function Send(c: ClientState, p: AnyPacket): (c': ClientState)
    ensures SameReceiver(c.conn, c'.conn)
  {
    if !c.state.Open? then c
    else
      var (c', failure) := Enqueue(c, p);
      if failure.Some? then ProtocolFailure(c', failure.value) else c'
  }

  /** What components and callbacks can do with the client, and whether they fail. */
  datatype Op = SendOp(p: AnyPacket) | DisconnectOp(flush: bool)

  datatype Reaction = Reaction(ops: seq<Op>, failed: bool)

  function Perform(c: ClientState, op: Op): (c': ClientState)
    ensures SameReceiver(c.conn, c'.conn)
  {
    match op
    case SendOp(p) => Send(c, p)
    case DisconnectOp(flush) => Disconnect(c, flush)
  }

  function PerformAll(c: ClientState, ops: seq<Op>): (c': ClientState)
    ensures SameReceiver(c.conn, c'.conn)
  {
    if ops == [] then c else Perform(PerformAll(c, ops[..|ops| - 1]), ops[|ops| - 1])
  }

  function React(c: ClientState, r: Reaction): (c': ClientState)
    ensures SameReceiver(c.conn, c'.conn)
  {
    var c' := PerformAll(c, r.ops);
    if r.failed then HandlerFailure(c') else c'
  }

  function ReactAll(c: ClientState, rs: seq<Reaction>): (c': ClientState)
    ensures SameReceiver(c.conn, c'.conn)
  {
    if rs == [] then c else React(ReactAll(c, rs[..|rs| - 1]), rs[|rs| - 1])
  }

  /** One poll of the connection. */
  function PollConnection(c: ClientState, net: Net): (ClientState, Option<Poll>, Net) {
    var polled := PollNext(c.conn, net);
    (c.(conn := polled.conn, accepted := c.accepted + polled.accepted), polled.item, polled.net)
  }

  /** Packets are handed to the components until the connection has no more; `ended` when its stream is over. */
  datatype LoopEnd = LoopEnd(client: ClientState, ended: bool, net: Net)

  function PacketLoop(c: ClientState, net: Net, k: nat, respond: nat -> seq<Reaction>): LoopEnd
    decreases !c.conn.disconnected, |c.conn.recv| + Weight(net.incoming)
  {
    var (c', item, net') := PollConnection(c, net);
    StepsEnd(c.conn, net);
    match item
    case Some(Ready(Ok(_))) => PacketLoop(ReactAll(c', respond(k)), net', k + 1, respond)
    case Some(Ready(Err(e))) => PacketLoop(ProtocolFailure(c', e), net', k, respond)
    case Some(Pending) => LoopEnd(c', false, net')
    case None => LoopEnd(Close(c'), true, net')
  }

  lemma StepsEnd(conn: Conn, net: Net)
    ensures var polled := PollNext(conn, net);
            match polled.item
            case Some(Ready(Ok(_))) =>
              && !conn.disconnected && !polled.conn.disconnected
              && |polled.conn.recv| + Weight(polled.net.incoming) < |conn.recv| + Weight(net.incoming)
            case Some(Ready(Err(_))) => !conn.disconnected && polled.conn.disconnected
            case Some(Pending) => !conn.disconnected && !polled.conn.disconnected
            case None => conn.disconnected && polled.conn == conn && polled.accepted == []
  {
    hide Weight, ReadLoop, WriteLoop;
    DeliveryIsProgress(conn, net);
  }

  /** One poll of the client: tasks and components first (`turn`), then the packets; true when it is over. */
  function PollClient(c: ClientState, turn: seq<Reaction>, respond: nat -> seq<Reaction>, net: Net): (ClientState, bool) {
    var started := ReactAll(c, turn);
    if started.state.Closed? then (started, true)
    else
      var loop := PacketLoop(started, net, 0, respond);
      if loop.ended then (loop.client, true)
      else if loop.client.state.Closing? && loop.client.conn.send == [] then (Close(loop.client), false)
      else (loop.client, false)
  }

  // ---------------------------------------------------------------- the running client

  class Client {
    var conn: Conn
    var state: ConnectionState
    var stored: seq<nat>
    var fired: seq<nat>
    var framed: seq<byte>
    var accepted: seq<byte>

    /** What the socket will do. */
    var net: Net

    ghost function State(): ClientState
      reads this
    {
      ClientState(conn, state, stored, fired, framed, accepted)
    }

    constructor (conn: Conn, net: Net)
      ensures State() == ClientState(conn, Open, [], [], conn.send, []) && this.net == net
    {
      this.conn, this.net, state, stored, fired := conn, net, Open, [], [];
      framed, accepted := conn.send, [];
    }

    method QueueFrame(p: AnyPacket) returns (failure: Option<ProtocolError>)
      modifies this`conn, this`framed
      ensures (State(), failure) == Enqueue(old(State()), p)
    {
      var before := conn.send;
      var (conn', failure') := Wire.SendPacket(conn, p);
      framed := framed + conn'.send[|before|..];
      conn, failure := conn', failure';
      if failure.None? {
        assert conn'.send[|before|..] == Frame(old(conn).cipher.encrypt, p).value.0;
      } else {
        assert framed == old(framed) + [];
      }
    }

    method SendAlertPacket(text: string)
      requires IsAscii(text)
      modifies this`conn, this`framed
      ensures State() == SendAlert(old(State()), text)
    {
      if state.Open? {
        var _ := QueueFrame(Alert(text));
      }
    }

    method SendPacket(p: AnyPacket)
      modifies this`conn, this`framed, this`state, this`stored, this`fired
      ensures State() == Send(old(State()), p)
    {
      hide Enqueue;
      if !state.Open? {
        return;
      }
      var failure := QueueFrame(p);
      if failure.Some? {
        HandleProtocolError(failure.value);
      }
    }

    /** The future it returns is always ready at once: nobody can wait for the flush. */
    method DisconnectClient(flush: bool) returns (ready: bool)
      modifies this`state, this`stored
      ensures State() == Disconnect(old(State()), flush)
      ensures ready
    {
      if !flush {
        state := Closed;
        return true;
      }
      var tx := |stored|;
      match state {
        case Open =>
          state := Closing([tx]);
          stored := stored + [tx];
        case Closing(callbacks) =>
          state := Closing(callbacks + [tx]);
          stored := stored + [tx];
        case Closed => return true;
      }
      return true;
    }

    method DoConnectionClose()
      modifies this`state, this`fired
      ensures State() == Close(old(State()))
    {
      var previous := state;
      state := Closed;
      if previous.Closing? {
        var callbacks := previous.callbacks;
        for i := 0 to |callbacks|
          invariant fired == old(fired) + callbacks[..i] && state == Closed
        {
          fired := fired + [callbacks[i]];
        }
        assert callbacks[..|callbacks|] == callbacks;
      }
    }

    method HandleProtocolError(e: ProtocolError)
      modifies this`conn, this`framed, this`state, this`stored, this`fired
      ensures State() == ProtocolFailure(old(State()), e)
    {
      hide Enqueue, Disconnect, Close, SendAlert;
      if e.ConnectionClosed? {
        DoConnectionClose();
        return;
      }
      SendAlertPacket(ProtocolText());
      var _ := DisconnectClient(true);
    }

    method HandleHandlerError()
      modifies this`conn, this`framed, this`state, this`stored
      ensures State() == HandlerFailure(old(State()))
    {
      hide Enqueue, Disconnect, Close, SendAlert;
      SendAlertPacket(HandlingText());
      var _ := DisconnectClient(true);
    }

    /** The components react one after the other. */
    method HandleReactions(rs: seq<Reaction>)
      modifies this`conn, this`framed, this`state, this`stored, this`fired
      ensures State() == ReactAll(old(State()), rs)
    {
      hide PerformAll, HandlerFailure, Perform;
      for i := 0 to |rs|
        invariant State() == ReactAll(old(State()), rs[..i])
      {
        assert rs[..i + 1][..i] == rs[..i];
        RunOps(rs[i].ops);
        if rs[i].failed {
          HandleHandlerError();
        }
      }
      assert rs[..|rs|] == rs;
    }

    method RunOps(ops: seq<Op>)
      modifies this`conn, this`framed, this`state, this`stored, this`fired
      ensures State() == PerformAll(old(State()), ops)
    {
      hide Send, Disconnect;
      for i := 0 to |ops|
        invariant State() == PerformAll(old(State()), ops[..i])
      {
        assert ops[..i + 1][..i] == ops[..i];
        match ops[i] {
          case SendOp(p) => SendPacket(p);
          case DisconnectOp(flush) => var _ := DisconnectClient(flush);
        }
      }
      assert ops[..|ops|] == ops;
    }

    method PollConnectionOnce() returns (item: Option<Poll>)
      modifies this`conn, this`accepted, this`net
      ensures (State(), item, net) == PollConnection(old(State()), old(net))
    {
      var polled := PollNext(conn, net);
      conn, net, accepted := polled.conn, polled.net, accepted + polled.accepted;
      return polled.item;
    }

    method PollPackets(respond: nat -> seq<Reaction>) returns (ended: bool)
      modifies this
      ensures LoopEnd(State(), ended, net) == PacketLoop(old(State()), old(net), 0, respond)
    {
      hide PollConnection, ReactAll, ProtocolFailure, Weight, Close;
      ghost var expected := PacketLoop(State(), net, 0, respond);
      var k := 0;
      while true
        invariant PacketLoop(State(), net, k, respond) == expected
        decreases !conn.disconnected, |conn.recv| + Weight(net.incoming)
      {
        ConnectionStepsEnd(State(), net);
        var item := PollConnectionOnce();
        match item {
          case Some(Ready(Ok(_))) =>
            HandleReactions(respond(k));
            k := k + 1;
          case Some(Ready(Err(e))) =>
            HandleProtocolError(e);
          case Some(Pending) =>
            return false;
          case None =>
            DoConnectionClose();
            return true;
        }
      }
    }

    method Poll(turn: seq<Reaction>, respond: nat -> seq<Reaction>) returns (ready: bool)
      modifies this
      ensures (State(), ready) == PollClient(old(State()), turn, respond, old(net))
    {
      hide PacketLoop, ReactAll;
      HandleReactions(turn);
      if state.Closed? {
        return true;
      }
      var ended := PollPackets(respond);
      if ended {
        return true;
      }
      if state.Closing? && conn.send == [] {
        DoConnectionClose();
      }
      return false;
    }
  }

  lemma ConnectionStepsEnd(c: ClientState, net: Net)
    ensures var (c', item, net') := PollConnection(c, net);
            match item
            case Some(Ready(Ok(_))) =>
              && !c.conn.disconnected && !c'.conn.disconnected
              && |c'.conn.recv| + Weight(net'.incoming) < |c.conn.recv| + Weight(net.incoming)
            case Some(Ready(Err(_))) => !c.conn.disconnected && c'.conn.disconnected
            case _ => true
  {
    hide PollNext, Weight;
    StepsEnd(c.conn, net);
  }
}
