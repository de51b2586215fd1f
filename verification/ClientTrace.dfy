/** What a client says over its life: exactly the packets it was asked to send while open, and the alerts, in order. */
module ClientTrace {
  import opened Wrappers
  import opened Bytes
  import opened Cipher
  import opened Packets
  import opened Wire
  import opened WireLaws
  import opened PollLaws
  import opened Channel
  import opened HandshakeLaws
  import opened ClientLifecycle
  import opened ClientLifecycleLaws

  /** What is said in some stretch of a client's life, and whether the client is open after it. */
  datatype Saying = Saying(open: bool, packets: seq<AnyPacket>)

  predicate Encodable(ps: seq<AnyPacket>) {
    forall p :: p in ps ==> Payload(p).Ok?
  }

  function ProtocolAlert(): seq<AnyPacket> {
    [Alert(ProtocolText())]
  }

  function HandlingAlert(): seq<AnyPacket> {
    [Alert(HandlingText())]
  }

  function SaidByOp(open: bool, op: Op): (s: Saying)
    ensures Encodable(s.packets)
  {
    if !open then Saying(false, [])
    else
      match op
      case SendOp(p) => if Payload(p).Ok? then Saying(true, [p]) else Saying(false, ProtocolAlert())
      case DisconnectOp(_) => Saying(false, [])
  }

  function SaidByOps(open: bool, ops: seq<Op>): (s: Saying)
    ensures Encodable(s.packets)
  {
    if ops == [] then Saying(open, [])
    else
      var before := SaidByOps(open, ops[..|ops| - 1]);
      var last := SaidByOp(before.open, ops[|ops| - 1]);
      Saying(last.open, before.packets + last.packets)
  }

  function SaidByReaction(open: bool, r: Reaction): (s: Saying)
    ensures Encodable(s.packets)
  {
    var s := SaidByOps(open, r.ops);
    if r.failed then Saying(false, s.packets + (if s.open then HandlingAlert() else [])) else s
  }

  function SaidByReactions(open: bool, rs: seq<Reaction>): (s: Saying)
    ensures Encodable(s.packets)
  {
    if rs == [] then Saying(open, [])
    else
      var before := SaidByReactions(open, rs[..|rs| - 1]);
      var last := SaidByReaction(before.open, rs[|rs| - 1]);
      Saying(last.open, before.packets + last.packets)
  }

  // ---------------------------------------------------------------- saying and framing

  /** Between `c` and `c'` exactly this was said: its frames, under the lane of that moment, are what was queued. */
  predicate Said(c: ClientState, c': ClientState, s: Saying)
    requires Encodable(s.packets)
  {
    var (bytes, lane) := Frames(c.conn.cipher.encrypt, s.packets);
    (c'.state.Open? <==> s.open) && c'.framed == c.framed + bytes && c'.conn.cipher.encrypt == lane
  }

  lemma {:induction false} FramesJoin(lane: Lane, a: seq<Packet>, b: seq<Packet>)
    requires forall p :: p in a + b ==> IsPacket(p) && Payload(p).Ok?
    ensures (forall p :: p in a ==> p in a + b) && (forall p :: p in b ==> p in a + b)
    ensures var (bytes, lane') := Frames(lane, a);
            Frames(lane, a + b) == (bytes + Frames(lane', b).0, Frames(lane', b).1)
    decreases |a|
  {
    hide Payload, Frame;
    if a == [] {
      assert a + b == b;
      assert [] + Frames(lane, b).0 == Frames(lane, b).0;
    } else {
      assert (a + b)[0] == a[0] && (a + b)[1..] == a[1..] + b;
      assert forall p :: p in a[1..] + b ==> p in a + b;
      var (frame, lane') := Frame(lane, a[0]).value;
      FramesJoin(lane', a[1..], b);
      var (rest, lane'') := Frames(lane', a[1..]);
      FrameRest(frame, rest, Frames(lane'', b).0);
    }
  }

  lemma SaidTwice(a: ClientState, b: ClientState, c: ClientState, s: Saying, t: Saying)
    requires Encodable(s.packets) && Encodable(t.packets)
    requires Said(a, b, s) && Said(b, c, t)
    ensures Encodable(s.packets + t.packets) && Said(a, c, Saying(t.open, s.packets + t.packets))
  {
    hide Frames, Payload;
    FramesJoin(a.conn.cipher.encrypt, s.packets, t.packets);
    FrameRest(a.framed, Frames(a.conn.cipher.encrypt, s.packets).0, Frames(b.conn.cipher.encrypt, t.packets).0);
  }

  /** A stretch in which nothing is queued. */
  lemma SaidNothing(c: ClientState, c': ClientState)
    requires c'.framed == c.framed && c'.conn.cipher.encrypt == c.conn.cipher.encrypt
    ensures Said(c, c', Saying(c'.state.Open?, []))
  {
    assert c.framed + [] == c.framed;
  }

  // ---------------------------------------------------------------- single operations

  /** A packet that can be encoded: its frame, under the lane of that moment, is the only thing that is added. */
  lemma SendQueues(c: ClientState, p: AnyPacket)
    requires c.state.Open? && Payload(p).Ok?
    ensures var c' := Send(c, p);
            var frame := Frame(c.conn.cipher.encrypt, p).value.0;
            && c' == c.(conn := SendPacket(c.conn, p).0, framed := c.framed + frame)
            && c'.conn.send == c.conn.send + frame && c'.state.Open?
            && Said(c, c', Saying(true, [p]))
  {
    hide Payload, EncryptLane, Header;
    OneFrame(c.conn.cipher.encrypt, p);
  }

  lemma AlertQueues(c: ClientState, text: string)
    requires c.state.Open? && IsAscii(text)
    ensures Said(c, SendAlert(c, text), Saying(true, [Alert(text)])) && SendAlert(c, text).state == c.state
    ensures SendAlert(c, text).stored == c.stored && SendAlert(c, text).fired == c.fired
  {
    hide Payload, EncryptLane, Header, Alert;
    OneFrame(c.conn.cipher.encrypt, Alert(text));
  }

  /** A packet that cannot be encoded: an alert instead of it, and the client starts to close. */
  lemma UnencodableCloses(c: ClientState, p: AnyPacket)
    requires c.state.Open? && Payload(p).Err?
    ensures var c' := Send(c, p);
            && Said(c, c', Saying(false, ProtocolAlert()))
            && c'.state == Closing([|c.stored|]) && c'.stored == c.stored + [|c.stored|] && c'.fired == c.fired
  {
    hide Payload, SendAlert, ProtocolText;
    assert c.framed + [] == c.framed;
    AlertQueues(c, ProtocolText());
  }

  /** The same for a component that fails, with an alert of its own. */
  lemma FailureCloses(c: ClientState)
    requires c.state.Open?
    ensures var c' := HandlerFailure(c);
            && Said(c, c', Saying(false, HandlingAlert()))
            && c'.state == Closing([|c.stored|]) && c'.stored == c.stored + [|c.stored|] && c'.fired == c.fired
  {
    hide SendAlert, HandlingText;
    AlertQueues(c, HandlingText());
  }

  /** And for a protocol error, unless it says that the connection is closed: that closes the client at once. */
  lemma ProtocolErrorCloses(c: ClientState, e: ProtocolError)
    requires c.state.Open?
    ensures var c' := ProtocolFailure(c, e);
            if e.ConnectionClosed? then c' == c.(state := Closed)
            else
              && Said(c, c', Saying(false, ProtocolAlert()))
              && c'.state == Closing([|c.stored|]) && c'.stored == c.stored + [|c.stored|] && c'.fired == c.fired
  {
    hide SendAlert, ProtocolText;
    if !e.ConnectionClosed? {
      AlertQueues(c, ProtocolText());
    }
  }

  /** Every flushing disconnect of a client that is not closed stores one more callback, behind the others. */
  lemma DisconnectStores(c: ClientState)
    requires !c.state.Closed?
    ensures var c' := Disconnect(c, true);
            && c'.stored == c.stored + [|c.stored|]
            && c'.state == Closing((if c.state.Closing? then c.state.callbacks else []) + [|c.stored|])
            && c' == c.(state := c'.state, stored := c'.stored)
  {
  }

  /** A client that is not open queues nothing any more, whatever it is asked for, and does not open again. */
  lemma SilentWhenNotOpen(c: ClientState, op: Op)
    requires !c.state.Open?
    ensures Said(c, Perform(c, op), Saying(false, [])) && Perform(c, op).conn == c.conn
  {
    hide Enqueue;
    SaidNothing(c, Perform(c, op));
  }

  lemma OpSays(c: ClientState, op: Op)
    ensures Said(c, Perform(c, op), SaidByOp(c.state.Open?, op))
  {
    hide Said, Send, Payload, Disconnect;
    if !c.state.Open? {
      SilentWhenNotOpen(c, op);
    } else {
      match op
      case SendOp(p) => if Payload(p).Ok? { SendQueues(c, p); } else { UnencodableCloses(c, p); }
      case DisconnectOp(flush) => DisconnectSays(c, flush);
    }
  }

  lemma DisconnectSays(c: ClientState, flush: bool)
    ensures Said(c, Disconnect(c, flush), Saying(false, []))
  {
    SaidNothing(c, Disconnect(c, flush));
  }

  lemma HandlerFailureSays(c: ClientState)
    ensures Said(c, HandlerFailure(c), Saying(false, if c.state.Open? then HandlingAlert() else []))
  {
    hide Said, Enqueue, HandlingText;
    if c.state.Open? {
      FailureCloses(c);
    } else {
      DisconnectSays(c, true);
    }
  }

  // ---------------------------------------------------------------- lists of operations

  lemma {:induction false} OpsSay(c: ClientState, ops: seq<Op>)
    ensures Said(c, PerformAll(c, ops), SaidByOps(c.state.Open?, ops))
  {
    hide Perform, SaidByOp;
    if ops == [] {
      SaidNothing(c, c);
    } else {
      var before, s := PerformAll(c, ops[..|ops| - 1]), SaidByOps(c.state.Open?, ops[..|ops| - 1]);
      OpsSay(c, ops[..|ops| - 1]);
      OpSays(before, ops[|ops| - 1]);
      StaysAsSaid(c, before, s);
      SaidTwice(c, before, PerformAll(c, ops), s, SaidByOp(s.open, ops[|ops| - 1]));
    }
  }

  lemma StaysAsSaid(c: ClientState, c': ClientState, s: Saying)
    requires Encodable(s.packets) && Said(c, c', s)
    ensures c'.state.Open? <==> s.open
  {
  }

  lemma ReactionSays(c: ClientState, r: Reaction)
    ensures Said(c, React(c, r), SaidByReaction(c.state.Open?, r))
  {
    hide Said, PerformAll, SaidByOps, HandlerFailure;
    var c', s := PerformAll(c, r.ops), SaidByOps(c.state.Open?, r.ops);
    OpsSay(c, r.ops);
    if r.failed {
      StaysAsSaid(c, c', s);
      HandlerFailureSays(c');
      SaidTwice(c, c', HandlerFailure(c'), s, Saying(false, if s.open then HandlingAlert() else []));
    }
  }

  lemma {:induction false} ReactionsSay(c: ClientState, rs: seq<Reaction>)
    ensures Said(c, ReactAll(c, rs), SaidByReactions(c.state.Open?, rs))
  {
    hide React, SaidByReaction;
    if rs == [] {
      SaidNothing(c, c);
    } else {
      var before, s := ReactAll(c, rs[..|rs| - 1]), SaidByReactions(c.state.Open?, rs[..|rs| - 1]);
      ReactionsSay(c, rs[..|rs| - 1]);
      ReactionSays(before, rs[|rs| - 1]);
      StaysAsSaid(c, before, s);
      SaidTwice(c, before, ReactAll(c, rs), s, SaidByReaction(s.open, rs[|rs| - 1]));
    }
  }

  // ---------------------------------------------------------------- the state they leave

  datatype Stage = IsOpen | IsClosing | IsClosed

  function StageOf(state: ConnectionState): Stage {
    match state
    case Open => IsOpen
    case Closing(_) => IsClosing
    case Closed => IsClosed
  }

  /** Where a stretch of a client's life leaves it, and how many callbacks it stored. */
  datatype Passage = Passage(stage: Stage, added: nat)

  /** A request to close with a flush: it counts unless the client is closed already. */
  function Closes(stage: Stage): Passage {
    if stage.IsClosed? then Passage(IsClosed, 0) else Passage(IsClosing, 1)
  }

  function PassageOfOp(stage: Stage, op: Op): Passage {
    match op
    case DisconnectOp(flush) => if flush then Closes(stage) else Passage(IsClosed, 0)
    case SendOp(p) => if stage.IsOpen? && Payload(p).Err? then Passage(IsClosing, 1) else Passage(stage, 0)
  }

  function PassageOfOps(stage: Stage, ops: seq<Op>): Passage {
    if ops == [] then Passage(stage, 0)
    else
      var before := PassageOfOps(stage, ops[..|ops| - 1]);
      var last := PassageOfOp(before.stage, ops[|ops| - 1]);
      Passage(last.stage, before.added + last.added)
  }

  function PassageOfReaction(stage: Stage, r: Reaction): Passage {
    var before := PassageOfOps(stage, r.ops);
    var last := if r.failed then Closes(before.stage) else Passage(before.stage, 0);
    Passage(last.stage, before.added + last.added)
  }

  function PassageOfReactions(stage: Stage, rs: seq<Reaction>): Passage {
    if rs == [] then Passage(stage, 0)
    else
      var before := PassageOfReactions(stage, rs[..|rs| - 1]);
      var last := PassageOfReaction(before.stage, rs[|rs| - 1]);
      Passage(last.stage, before.added + last.added)
  }

  /** `c'` is where `passage` leads from `c`; callbacks are only stored on the way, never sent. */
  predicate Passes(c: ClientState, c': ClientState, passage: Passage) {
    && StageOf(c'.state) == passage.stage && |c'.stored| == |c.stored| + passage.added && c.stored <= c'.stored
    && c'.fired == c.fired && c'.accepted == c.accepted
  }

  lemma PassesTwice(a: ClientState, b: ClientState, c: ClientState, p: Passage, q: Passage)
    requires Passes(a, b, p) && Passes(b, c, q)
    ensures Passes(a, c, Passage(q.stage, p.added + q.added))
  {
  }

  lemma DisconnectPasses(c: ClientState, flush: bool)
    ensures Passes(c, Disconnect(c, flush), if flush then Closes(StageOf(c.state)) else Passage(IsClosed, 0))
  {
  }

  lemma OpPasses(c: ClientState, op: Op)
    ensures Passes(c, Perform(c, op), PassageOfOp(StageOf(c.state), op))
  {
    hide Send, Disconnect, Payload;
    match op
    case DisconnectOp(flush) => DisconnectPasses(c, flush);
    case SendOp(p) => SendPasses(c, p);
  }

  lemma SendPasses(c: ClientState, p: AnyPacket)
    ensures Passes(c, Send(c, p), PassageOfOp(StageOf(c.state), SendOp(p)))
  {
    hide Payload, ProtocolFailure, Frame, Said;
    if c.state.Open? {
      if Payload(p).Ok? {
        SendQueues(c, p);
      } else {
        UnencodablePasses(c, p);
      }
    }
  }

  lemma UnencodablePasses(c: ClientState, p: AnyPacket)
    requires c.state.Open? && Payload(p).Err?
    ensures Passes(c, Send(c, p), Passage(IsClosing, 1))
  {
    hide Payload, SendAlert, ProtocolText;
    AlertPasses(c, ProtocolText());
    assert c.framed + [] == c.framed;
  }

  lemma AlertPasses(c: ClientState, text: string)
    requires IsAscii(text)
    ensures Passes(c, SendAlert(c, text), Passage(StageOf(c.state), 0)) && SendAlert(c, text).state == c.state
  {
    hide Alert, Frame;
  }

  lemma {:induction false} OpsPass(c: ClientState, ops: seq<Op>)
    ensures Passes(c, PerformAll(c, ops), PassageOfOps(StageOf(c.state), ops))
  {
    hide Perform, PassageOfOp;
    if ops != [] {
      var before, passage := PerformAll(c, ops[..|ops| - 1]), PassageOfOps(StageOf(c.state), ops[..|ops| - 1]);
      OpsPass(c, ops[..|ops| - 1]);
      OpPasses(before, ops[|ops| - 1]);
      PassesTwice(c, before, PerformAll(c, ops), passage, PassageOfOp(passage.stage, ops[|ops| - 1]));
    }
  }

  lemma FailurePasses(c: ClientState)
    ensures Passes(c, HandlerFailure(c), Closes(StageOf(c.state)))
  {
    hide SendAlert, HandlingText, Disconnect;
    AlertPasses(c, HandlingText());
    var alerted := SendAlert(c, HandlingText());
    DisconnectPasses(alerted, true);
    PassesTwice(c, alerted, Disconnect(alerted, true), Passage(StageOf(c.state), 0), Closes(StageOf(c.state)));
  }

  lemma ReactionPasses(c: ClientState, r: Reaction)
    ensures Passes(c, React(c, r), PassageOfReaction(StageOf(c.state), r))
  {
    hide PerformAll, PassageOfOps, HandlerFailure;
    OpsPass(c, r.ops);
    FailurePasses(PerformAll(c, r.ops));
  }

  /** What components and callbacks do to a client's state, by nothing but what they do. */
  lemma {:induction false} ReactionsPass(c: ClientState, rs: seq<Reaction>)
    ensures Passes(c, ReactAll(c, rs), PassageOfReactions(StageOf(c.state), rs))
  {
    hide React, PassageOfReaction;
    if rs != [] {
      var before, passage := ReactAll(c, rs[..|rs| - 1]), PassageOfReactions(StageOf(c.state), rs[..|rs| - 1]);
      ReactionsPass(c, rs[..|rs| - 1]);
      ReactionPasses(before, rs[|rs| - 1]);
      PassesTwice(c, before, ReactAll(c, rs), passage, PassageOfReaction(passage.stage, rs[|rs| - 1]));
    }
  }

  // ---------------------------------------------------------------- whole lives

  lemma PollKeepsLane(conn: Conn, net: Net)
    ensures PollNext(conn, net).conn.cipher.encrypt == conn.cipher.encrypt
  {
    hide WriteLoop, ReadLoop, ParseFrame;
    if !conn.disconnected {
      WriteLoopOnly(conn, net);
      var flushed := EnsureSpace(conn.(send := conn.send[WriteLoop(conn.send, net.outgoing).0..]));
      var consumed := ReadLoopParsesOnce(flushed, net.incoming);
    }
  }

  lemma PollSays(c: ClientState, net: Net)
    ensures var c' := PollConnection(c, net).0;
            c'.state == c.state && Said(c, c', Saying(c.state.Open?, []))
  {
    hide PollNext;
    PollKeepsLane(c.conn, net);
    SaidNothing(c, PollConnection(c, net).0);
  }

  lemma CloseSays(c: ClientState)
    ensures Said(c, Close(c), Saying(false, []))
  {
    SaidNothing(c, Close(c));
  }

  lemma ProtocolFailureSays(c: ClientState, e: ProtocolError)
    ensures Said(c, ProtocolFailure(c, e),
                 Saying(false, if c.state.Open? && !e.ConnectionClosed? then ProtocolAlert() else []))
  {
    hide Said, Enqueue, ProtocolText;
    if c.state.Open? {
      ProtocolErrorCloses(c, e);
      CloseSays(c);
    } else if e.ConnectionClosed? {
      CloseSays(c);
    } else {
      DisconnectSays(c, true);
    }
  }

  /** How the packet loop of a poll ended, and how many packets it was given before. */
  datatype Ending = Waits | Over | Broken(error: ProtocolError)

  datatype Watched = Watched(given: nat, ending: Ending)

  function Watch(c: ClientState, net: Net, k: nat, respond: nat -> seq<Reaction>): Watched
    decreases !c.conn.disconnected, |c.conn.recv| + Weight(net.incoming)
  {
    var (c', item, net') := PollConnection(c, net);
    StepsEnd(c.conn, net);
    match item
    case Some(Ready(Ok(_))) =>
      var rest := Watch(ReactAll(c', respond(k)), net', k + 1, respond);
      rest.(given := rest.given + 1)
    case Some(Ready(Err(e))) => Watched(0, Broken(e))
    case Some(Pending) => Watched(0, Waits)
    case None => Watched(0, Over)
  }

  /** What is said in a loop that was given the packets from number `k` on: every one is reacted to, then the end. */
  function SaidInLoop(open: bool, k: nat, w: Watched, respond: nat -> seq<Reaction>): (s: Saying)
    ensures Encodable(s.packets)
    decreases w.given
  {
    if w.given > 0 then
      var head := SaidByReactions(open, respond(k));
      var tail := SaidInLoop(head.open, k + 1, w.(given := w.given - 1), respond);
      Saying(tail.open, head.packets + tail.packets)
    else
      match w.ending
      case Waits => Saying(open, [])
      case Over => Saying(false, [])
      case Broken(e) => Saying(false, if open && !e.ConnectionClosed? then ProtocolAlert() else [])
  }

  lemma {:induction false} LoopSays(c: ClientState, net: Net, k: nat, respond: nat -> seq<Reaction>)
    ensures Said(c, PacketLoop(c, net, k, respond).client, SaidInLoop(c.state.Open?, k, Watch(c, net, k, respond), respond))
    decreases !c.conn.disconnected, |c.conn.recv| + Weight(net.incoming)
  {
    hide Said, PollConnection, ReactAll, ProtocolFailure, Weight, SaidByReactions, Close;
    PollSays(c, net);
    PollResult(c, net);
    var (c', item, net') := PollConnection(c, net);
    var open := c.state.Open?;
    match item {
      case Some(Ready(Ok(_))) =>
        var next, s := ReactAll(c', respond(k)), SaidByReactions(open, respond(k));
        ReactionsSay(c', respond(k));
        StaysAsSaid(c', next, s);
        LoopSays(next, net', k + 1, respond);
        var rest := SaidInLoop(s.open, k + 1, Watch(next, net', k + 1, respond), respond);
        SaidTwice(c', next, PacketLoop(next, net', k + 1, respond).client, s, rest);
        SaidAfterNothing(c, c', PacketLoop(next, net', k + 1, respond).client, Saying(rest.open, s.packets + rest.packets));
      case Some(Ready(Err(e))) =>
        var next := ProtocolFailure(c', e);
        var s := Saying(false, if open && !e.ConnectionClosed? then ProtocolAlert() else []);
        ProtocolFailureSays(c', e);
        SaidAfterNothing(c, c', next, s);
        DeadLoopCloses(next, net', k, respond);
        SaidTwice(c, next, PacketLoop(next, net', k, respond).client, s, Saying(false, []));
        assert s.packets + [] == s.packets;
      case Some(Pending) =>
      case None =>
        CloseSays(c');
        SaidAfterNothing(c, c', Close(c'), Saying(false, []));
    }
  }

  lemma SaidAfterNothing(a: ClientState, b: ClientState, c: ClientState, s: Saying)
    requires Encodable(s.packets) && Said(a, b, Saying(a.state.Open?, [])) && Said(b, c, s)
    ensures Said(a, c, s)
  {
    SaidTwice(a, b, c, Saying(a.state.Open?, []), s);
    assert [] + s.packets == s.packets;
  }

  lemma DeadLoopCloses(c: ClientState, net: Net, k: nat, respond: nat -> seq<Reaction>)
    requires c.conn.disconnected
    ensures Said(c, PacketLoop(c, net, k, respond).client, Saying(false, []))
  {
    hide PollNext;
    StepsEnd(c.conn, net);
    SaidNothing(c, PacketLoop(c, net, k, respond).client);
  }

  /** One poll: the tasks and components, then, unless the client is closed, the packet loop. */
  function SaidByPoll(c: ClientState, turn: seq<Reaction>, respond: nat -> seq<Reaction>, net: Net): (s: Saying)
    ensures Encodable(s.packets)
  {
    var head := SaidByReactions(c.state.Open?, turn);
    var started := ReactAll(c, turn);
    if started.state.Closed? then head
    else
      var tail := SaidInLoop(head.open, 0, Watch(started, net, 0, respond), respond);
      Saying(tail.open, head.packets + tail.packets)
  }

  lemma PollClientSays(c: ClientState, turn: seq<Reaction>, respond: nat -> seq<Reaction>, net: Net)
    ensures Said(c, PollClient(c, turn, respond, net).0, SaidByPoll(c, turn, respond, net))
  {
    hide Said, ReactAll, PacketLoop, SaidByReactions, SaidInLoop, Watch;
    var started, head := ReactAll(c, turn), SaidByReactions(c.state.Open?, turn);
    ReactionsSay(c, turn);
    StaysAsSaid(c, started, head);
    if !started.state.Closed? {
      var loop := PacketLoop(started, net, 0, respond);
      var tail := SaidInLoop(head.open, 0, Watch(started, net, 0, respond), respond);
      LoopSays(started, net, 0, respond);
      SaidTwice(c, started, loop.client, head, tail);
      if loop.client.state.Closing? {
        ClosingSays(c, loop.client, Saying(tail.open, head.packets + tail.packets));
      }
    }
  }

  lemma ClosingSays(c: ClientState, c': ClientState, s: Saying)
    requires Encodable(s.packets) && Said(c, c', s) && c'.state.Closing?
    ensures Said(c, Close(c'), s)
  {
  }

  function SaidByAct(c: ClientState, act: Act): (s: Saying)
    ensures Encodable(s.packets)
  {
    match act
    case Polls(turn, respond, net) => SaidByPoll(c, turn, respond, net)
    case Uses(op) => SaidByOp(c.state.Open?, op)
  }

  function SaidByActs(c: ClientState, acts: seq<Act>): (s: Saying)
    ensures Encodable(s.packets)
    decreases |acts|
  {
    if acts == [] then Saying(c.state.Open?, [])
    else
      var head, tail := SaidByAct(c, acts[0]), SaidByActs(ClientLifecycleLaws.Step(c, acts[0]), acts[1..]);
      Saying(tail.open, head.packets + tail.packets)
  }

  /**
    Over a whole life: what is queued are the frames of the packets that were sent while the client was open and of
    its alerts, all of them, in order, each under the lane the previous one left.
   */
  lemma {:induction false} LifeSays(c: ClientState, acts: seq<Act>)
    ensures Said(c, After(c, acts), SaidByActs(c, acts))
    decreases |acts|
  {
    hide Said, PollClient, Perform, SaidByPoll, SaidByOp;
    if acts == [] {
      SaidNothing(c, c);
    } else {
      var next := ClientLifecycleLaws.Step(c, acts[0]);
      match acts[0] {
        case Polls(turn, respond, net) => PollClientSays(c, turn, respond, net);
        case Uses(op) => OpSays(c, op);
      }
      LifeSays(next, acts[1..]);
      SaidTwice(c, next, After(next, acts[1..]), SaidByAct(c, acts[0]), SaidByActs(next, acts[1..]));
    }
  }

  /** So what the socket took and what is still buffered are the bytes there at the start and then these frames. */
  lemma EverythingSaidIsOnItsWay(conn: Conn, acts: seq<Act>)
    ensures var c := After(NewClient(conn), acts);
            c.accepted + c.conn.send == conn.send + Frames(conn.cipher.encrypt, SaidByActs(NewClient(conn), acts).packets).0
  {
    hide After, SaidByActs, Frames;
    LifeSays(NewClient(conn), acts);
    CallbacksFireTruthfully(conn, acts);
  }

  /** Any list of packets that encode, sent to an open client, is queued whole and in order. */
  lemma SendsAreQueuedInOrder(c: ClientState, ps: seq<AnyPacket>)
    requires c.state.Open? && Encodable(ps)
    ensures var c' := PerformAll(c, SendEach(ps));
            c'.state.Open? && c'.framed == c.framed + Frames(c.conn.cipher.encrypt, ps).0
  {
    hide PerformAll, Frames;
    SendingSaysEach(ps);
    OpsSay(c, SendEach(ps));
  }

  function SendEach(ps: seq<AnyPacket>): seq<Op> {
    seq(|ps|, i requires 0 <= i < |ps| => SendOp(ps[i]))
  }

  lemma {:induction false} SendingSaysEach(ps: seq<AnyPacket>)
    requires Encodable(ps)
    ensures SaidByOps(true, SendEach(ps)) == Saying(true, ps)
  {
    if ps != [] {
      SendingSaysEach(ps[..|ps| - 1]);
      assert SendEach(ps)[..|ps| - 1] == SendEach(ps[..|ps| - 1]);
    }
  }

  /** A poll is over exactly when the tasks and components left the client closed, or the connection is lost. */
  lemma PollIsOverIff(c: ClientState, turn: seq<Reaction>, respond: nat -> seq<Reaction>, net: Net)
    ensures var (c', ready) := PollClient(c, turn, respond, net);
            ready <==> ReactAll(c, turn).state.Closed? || c'.conn.disconnected
  {
    hide ReactAll, PacketLoop;
    var started := ReactAll(c, turn);
    if !started.state.Closed? {
      PacketLoopFollows(started, net, 0, respond);
    }
  }
}
