/** What a waiting client makes of the first thing it is given. */
module HandshakeLaws {
  import opened Wrappers
  import opened Bytes
  import opened Codec
  import opened CodecLaws
  import opened Cipher
  import opened Packets
  import opened Wire
  import opened WireLaws
  import opened PollLaws
  import opened Handshakes
  import opened Channel
  import opened SessionLaws

  /** A packet of the kind that carries a key. */
  predicate IsKeyPacket(p: Packet) {
    p.TypedPacket? && p.id == INIT_ID && p.fieldTypes == INIT_TYPES
  }

  /** Such a packet is the one a server would send for the key inside it. */
  lemma KeyPacketHasKey(p: Packet)
    requires IsPacket(p)
    ensures InitKey(p).Some? <==> IsKeyPacket(p)
    ensures IsKeyPacket(p) ==> p == InitPacket(InitKey(p).value)
  {
    if IsKeyPacket(p) {
      assert HasType(INIT_TYPES[0], p.fields[0]);
      var elements := p.fields[0].elements;
      assert Pow256(1) == 256;
      forall i | 0 <= i < |elements|
        ensures KeyValues(KeyBytes(elements))[i] == elements[i]
      {
        assert elements[i] in elements;
      }
      assert KeyValues(KeyBytes(elements)) == elements;
      assert |p.fields| == 1 && p.fields == [p.fields[0]];
      assert p.fields[0] == VVec(elements);
    }
  }

  /**
    One poll of a waiting client. It starts exactly if it is given a packet that carries a key, with that key; any
    other packet, an error and the end of the stream refuse the handshake, and leave the connection as polled.
   */
  lemma HandshakeStartsIff(conn: Conn, net: Net)
    ensures var polled := PollNext(conn, net);
            var (conn', outcome) := AcceptInit(polled.conn, polled.item);
            && (outcome.Started? <==> exists p :: polled.item == Some(Ready(Ok(p))) && IsKeyPacket(p))
            && (!outcome.Started? ==> conn' == polled.conn)
            && match polled.item
               case Some(Ready(Ok(p))) =>
                 if IsKeyPacket(p) then
                   exists key :: p == InitPacket(key) && conn' == polled.conn.(cipher := NewXor(Client, key))
                 else outcome == Refused(UnexpectedPacket)
               case Some(Ready(Err(e))) => outcome == Refused(e)
               case Some(Pending) => outcome == Waiting
               case None => outcome == Refused(ConnectionAborted)
  {
    hide PollNext, InitKey;
    GivenCanBeForwarded(conn, net);
    var item := PollNext(conn, net).item;
    match item
    case Some(Ready(Ok(p))) => KeyPacketHasKey(p);
    case _ =>
  }

  /** In bytes: a client that is handed the frame of any other packet first gives up, and never gets a cipher. */
  lemma OtherFirstPacketRefuses(conn: Conn, p: Packet)
    requires conn.cipher == PLAIN && !conn.disconnected && conn.recv == []
    requires Deliverable(conn.registry, p) && !IsKeyPacket(p)
    ensures var polled := PollNext(conn, Deliver(Frame(PlainLane, p).value.0));
            AcceptInit(polled.conn, polled.item) == (polled.conn, Refused(UnexpectedPacket)) && polled.conn.cipher == PLAIN
  {
    hide PollNext, Payload, Understood, Frame;
    var (frame, lane') := Frame(PlainLane, p).value;
    var sender := conn.(send := [], cipher := CipherState(lane', PlainLane));
    OneFrame(PlainLane, p);
    assert conn.recv + frame + sender.send == frame;
    NextPacketArrives(conn, sender, frame, [p]);
    DataOfDeliver(frame);
    PollKeepsFlows(conn, sender, frame, [p], Deliver(frame));
    HandshakeStartsIff(conn, Deliver(frame));
    PlainStaysPlain(p);
  }

  lemma OneFrame(lane: Lane, p: Packet)
    requires IsPacket(p) && Payload(p).Ok?
    ensures Frames(lane, [p]) == Frame(lane, p).value
  {
    assert [p][1..] == [];
    var frame := Frame(lane, p).value.0;
    assert frame + [] == frame;
  }

  lemma PlainStaysPlain(p: Packet)
    requires IsPacket(p) && Payload(p).Ok?
    ensures Frame(PlainLane, p).value.1 == PlainLane
  {
  }

  /** The key on the wire: its length in four bytes, then the key, in order and in the clear. */
  lemma KeyOnTheWire(key: seq<byte>)
    requires |key| < U32_LIMIT
    ensures IsPacket(InitPacket(key)) && Payload(InitPacket(key)) == Ok(BigEndianLength(|key|) + key)
    ensures FromBigEndian(BigEndianLength(|key|)) == |key| && |BigEndianLength(|key|)| == 4
  {
    InitPacketCarriesKey(key);
    var values := KeyValues(key);
    assert Pow256(1) == 256 && Pow256(4) == U32_LIMIT;
    FromBigEndianInverts(|key|, 4);
    ByteElements(key);
    FieldsOfOne(INIT_TYPES[0], VVec(values));
  }

  lemma {:induction false} ByteElements(key: seq<byte>)
    ensures forall v :: v in KeyValues(key) ==> HasType(TInt(1, false), v)
    ensures EncodeElements(TInt(1, false), KeyValues(key)) == Ok(key)
  {
    assert Pow256(1) == 256;
    if key != [] {
      ByteElements(key[1..]);
      assert KeyValues(key)[1..] == KeyValues(key[1..]);
      assert BigEndian(key[0] as nat, 1) == [key[0]];
      assert [key[0]] + key[1..] == key;
    }
  }

  function BigEndianLength(n: nat): seq<byte>
    requires n < U32_LIMIT
  {
    assert Pow256(4) == U32_LIMIT;
    BigEndian(n, 4)
  }
}
