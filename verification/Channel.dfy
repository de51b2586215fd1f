/**
  One direction between two connections: the packets on their way, as bytes in the receiver's buffer, in flight and
  in the sender's buffer, and what sending and polling do to them.
 */
module Channel {
  import opened Wrappers
  import opened Bytes
  import opened Cipher
  import opened Packets
  import opened Wire
  import opened WireLaws
  import opened PollLaws

  // ---------------------------------------------------------------- one direction

  /** The frames of several packets sent one after the other. */
  function Frames(lane: Lane, ps: seq<Packet>): (seq<byte>, Lane)
    requires forall p :: p in ps ==> IsPacket(p) && Payload(p).Ok?
    decreases |ps|
  {
    if ps == [] then ([], lane)
    else
      var (frame, lane') := Frame(lane, ps[0]).value;
      var (rest, lane'') := Frames(lane', ps[1..]);
      (frame + rest, lane'')
  }

  predicate AllDeliverable(registry: Registry, ps: seq<Packet>) {
    forall p :: p in ps ==> Deliverable(registry, p)
  }

  lemma {:induction false} FramesAppend(lane: Lane, ps: seq<Packet>, p: Packet)
    requires forall q :: q in ps + [p] ==> IsPacket(q) && Payload(q).Ok?
    ensures var (bytes, lane') := Frames(lane, ps);
            var (frame, lane'') := Frame(lane', p).value;
            Frames(lane, ps + [p]) == (bytes + frame, lane'')
    decreases |ps|
  {
    hide Frame, Payload;
    if ps == [] {
      assert [p][1..] == [];
      var frame := Frame(lane, p).value.0;
      assert frame + [] == frame && [] + frame == frame;
      assert ps + [p] == [p];
    } else {
      var (first, lane') := Frame(lane, ps[0]).value;
      FramesAppend(lane', ps[1..], p);
      assert (ps + [p])[1..] == ps[1..] + [p];
      var (rest, last) := Frames(lane', ps[1..]);
      var frame := Frame(last, p).value.0;
      assert first + (rest + frame) == first + rest + frame;
    }
  }

  /**
    `undelivered` are the packets between a sender and a receiver: the receiver's unread bytes, the bytes in flight
    and the sender's buffer are exactly their frames, from the receiver's end of the lane to the sender's.
   */
  predicate Flow(sender: Conn, flight: seq<byte>, receiver: Conn, undelivered: seq<Packet>) {
    && AllDeliverable(receiver.registry, undelivered)
    && Frames(receiver.cipher.decrypt, undelivered).0 == receiver.recv + flight + sender.send
    && Frames(receiver.cipher.decrypt, undelivered).1 == sender.cipher.encrypt
  }

  /** Sending appends to what is undelivered, or changes nothing at all. */
  lemma FlowSend(sender: Conn, flight: seq<byte>, receiver: Conn, undelivered: seq<Packet>, p: Packet)
    requires Flow(sender, flight, receiver, undelivered)
    requires IsPacket(p) && (Payload(p).Ok? ==> Deliverable(receiver.registry, p))
    ensures var (sender', failure) := SendPacket(sender, p);
            && (failure.None? <==> Payload(p).Ok?)
            && (failure.Some? ==> sender' == sender)
            && (failure.None? ==> Flow(sender', flight, receiver, undelivered + [p]))
  {
    hide Payload, Understood, Frames;
    if Payload(p).Ok? {
      assert forall q :: q in undelivered + [p] ==> Deliverable(receiver.registry, q);
      FramesAppend(receiver.cipher.decrypt, undelivered, p);
      var frame := Frame(sender.cipher.encrypt, p).value.0;
      assert receiver.recv + flight + sender.send + frame == receiver.recv + flight + (sender.send + frame);
    }
  }

  /** The outcome of polling the receiver of a flow: the next packet, nothing yet, or the end of the connection. */
  lemma FlowRead(sender: Conn, flight: seq<byte>, receiver: Conn, undelivered: seq<Packet>,
                 consumed: seq<byte>, receiver': Conn, poll: Poll)
    requires Flow(sender, flight, receiver, undelivered)
    requires consumed <= flight
    requires ReadOutcome(receiver, receiver.recv + consumed, receiver', poll)
    ensures match poll
            case Ready(Ok(p)) =>
              && undelivered != [] && p == undelivered[0] && Flow(sender, flight[|consumed|..], receiver', undelivered[1..])
              && Deliverable(receiver.registry, p)
              && receiver'.cipher.decrypt == Frame(receiver.cipher.decrypt, p).value.1
            case Ready(Err(e)) => e.ConnectionClosed?
            case Pending =>
              && Flow(sender, flight[|consumed|..], receiver', undelivered)
              && receiver'.cipher.decrypt == receiver.cipher.decrypt
  {
    hide ParseFrame, Payload, Understood;
    var unread := receiver.recv + consumed;
    var rest := flight[|consumed|..] + sender.send;
    Regroup(receiver.recv, consumed, flight, sender.send);
    if undelivered == [] {
      assert unread == [];
      NothingParsesToNothing(receiver.registry, receiver.cipher.decrypt);
    } else {
      assert undelivered[0] in undelivered && forall p :: p in undelivered[1..] ==> p in undelivered;
      var (frame, lane') := Frame(receiver.cipher.decrypt, undelivered[0]).value;
      HeadArrives(receiver.registry, receiver.cipher.decrypt, undelivered[0], Frames(lane', undelivered[1..]).0, unread, rest);
      FrameRest(receiver'.recv, flight[|consumed|..], sender.send);
    }
  }

  lemma Regroup(recv: seq<byte>, consumed: seq<byte>, flight: seq<byte>, send: seq<byte>)
    requires consumed <= flight
    ensures recv + flight + send == recv + consumed + (flight[|consumed|..] + send)
  {
    assert flight == consumed + flight[|consumed|..];
  }

  lemma FrameRest(a: seq<byte>, b: seq<byte>, c: seq<byte>)
    ensures a + (b + c) == a + b + c
  {
  }

  lemma NothingParsesToNothing(registry: Registry, lane: Lane)
    ensures ParseFrame(registry, lane, []).NeedMore?
  {
  }

  /** `unread` is the front of a stream that starts with the frame of `p`. */
  lemma HeadArrives(registry: Registry, lane: Lane, p: Packet, tail: seq<byte>, unread: seq<byte>, rest: seq<byte>)
    requires Deliverable(registry, p)
    requires Frame(lane, p).value.0 + tail == unread + rest
    ensures var (frame, lane') := Frame(lane, p).value;
            match ParseFrame(registry, lane, unread)
            case NeedMore(_) => |unread| < |frame|
            case Parsed(q, n, after) =>
              q == p && n == |frame| <= |unread| && after == lane' && tail == unread[n..] + rest
            case Failed(_, _, _) => false
  {
    hide ParseFrame, Payload, Understood;
    var (frame, lane') := Frame(lane, p).value;
    FrontOfFrame(registry, lane, p, tail, unread);
    if |unread| >= |frame| {
      assert (unread + rest)[|frame|..] == unread[|frame|..] + rest;
      assert (frame + tail)[|frame|..] == tail;
    }
  }

  /** Once every byte has arrived, a poll delivers the next packet: nothing stays stuck in the buffer. */
  lemma FlowProgress(sender: Conn, flight: seq<byte>, receiver: Conn, undelivered: seq<Packet>)
    requires Flow(sender, flight, receiver, undelivered)
    requires flight == [] && sender.send == [] && undelivered != []
    ensures TryParse(receiver).1 == Ready(Ok(undelivered[0]))
  {
    hide Payload, Understood;
    var unread, lane := receiver.recv, receiver.cipher.decrypt;
    assert receiver.recv + flight + sender.send == unread + [];
    assert undelivered[0] in undelivered && forall p :: p in undelivered[1..] ==> p in undelivered;
    var (frame, lane') := Frame(lane, undelivered[0]).value;
    var tail := Frames(lane', undelivered[1..]).0;
    FrontOfFrame(receiver.registry, lane, undelivered[0], tail, unread);
  }

  lemma {:induction false} FramesAreNotEmpty(lane: Lane, ps: seq<Packet>)
    requires forall p :: p in ps ==> IsPacket(p) && Payload(p).Ok?
    ensures |Frames(lane, ps).0| >= HEADER * |ps|
    decreases |ps|
  {
    if ps != [] {
      FramesAreNotEmpty(Frame(lane, ps[0]).value.1, ps[1..]);
    }
  }

  /** When no bytes are left anywhere, no packet is undelivered. */
  lemma FlowDrained(sender: Conn, flight: seq<byte>, receiver: Conn, undelivered: seq<Packet>)
    requires Flow(sender, flight, receiver, undelivered)
    requires receiver.recv == [] && flight == [] && sender.send == []
    ensures undelivered == []
  {
    FramesAreNotEmpty(receiver.cipher.decrypt, undelivered);
  }

  /** One poll of an endpoint that receives one flow and sends another. */
  lemma PollKeepsFlows(x: Conn, y: Conn, toX: seq<byte>, fromY: seq<Packet>, net: Net)
    requires !x.disconnected && Flow(y, toX, x, fromY) && DataOf(net.incoming) <= toX
    ensures var polled := PollNext(x, net);
            var taken := Taken(net.incoming, polled.net.incoming);
            && taken <= toX
            && polled.conn.cipher.encrypt == x.cipher.encrypt
            && polled.accepted + polled.conn.send == x.send
            && match polled.item
               case Some(Ready(Ok(p))) =>
                 && fromY != [] && p == fromY[0] && !polled.conn.disconnected
                 && Deliverable(x.registry, p)
                 && polled.conn.cipher.decrypt == Frame(x.cipher.decrypt, p).value.1
                 && Flow(y, toX[|taken|..], polled.conn, fromY[1..])
               case Some(Ready(Err(e))) => e.ConnectionClosed? && polled.conn.disconnected
               case Some(Pending) =>
                 && !polled.conn.disconnected && Flow(y, toX[|taken|..], polled.conn, fromY)
                 && polled.conn.cipher.decrypt == x.cipher.decrypt
               case None => false
  {
    hide WriteLoop, ReadLoop, ParseFrame, Frames, DataOf;
    WriteLoopOnly(x, net);
    var (n, failed, _) := WriteLoop(x.send, net.outgoing);
    assert x.send[..n] + x.send[n..] == x.send;
    if failed {
      TakenAll(net.incoming, net.incoming, []);
    } else {
      var flushed := EnsureSpace(x.(send := x.send[n..]));
      var consumed := ReadLoopParsesOnce(flushed, net.incoming);
      var (x', poll, rest) := ReadLoop(flushed, net.incoming);
      TakenAll(net.incoming, rest, consumed);
      FlowRead(y, toX, flushed, fromY, consumed, x', poll);
    }
  }

  /** What left the buffer is in flight. */
  lemma FlowFlush(x: Conn, x': Conn, toY: seq<byte>, accepted: seq<byte>, y: Conn, toBeDelivered: seq<Packet>)
    requires Flow(x, toY, y, toBeDelivered)
    requires accepted + x'.send == x.send && x'.cipher.encrypt == x.cipher.encrypt
    ensures Flow(x', toY + accepted, y, toBeDelivered)
  {
    assert y.recv + (toY + accepted) + x'.send == y.recv + toY + (accepted + x'.send);
  }
}
