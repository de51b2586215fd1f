/** Frames parse back, chunk boundaries do not matter, and the buffers never run out of room. */
module WireLaws {
  import opened Wrappers
  import opened Bytes
  import opened Codec
  import opened Cipher
  import opened Packets
  import opened Wire

  // ---------------------------------------------------------------- one frame

  function FrameLength(p: Packet): nat
    requires IsPacket(p) && Payload(p).Ok?
  {
    HEADER + |Payload(p).value|
  }

  /** The sender can see to it that a packet reaches the peer: encodable, small enough, and understood over there. */
  predicate Deliverable(registry: Registry, p: Packet) {
    IsPacket(p) && Payload(p).Ok? && FrameLength(p) <= MAX_FRAME && Understood(registry, p)
  }

  lemma HeaderReads(id: nat, length: nat, rest: seq<byte>)
    requires id < U32_LIMIT && length < U32_LIMIT
    ensures var s := Header(id, length) + rest;
            FromBigEndian(s[..4]) == length && FromBigEndian(s[4..8]) == id
  {
    hide BigEndian, FromBigEndian;
    FourBytes();
    var s := Header(id, length) + rest;
    assert s[..4] == BigEndian(length, 4) && s[4..8] == BigEndian(id, 4);
    FromBigEndianInverts(length, 4);
    FromBigEndianInverts(id, 4);
  }

  lemma FourBytes()
    ensures Pow256(4) == U32_LIMIT
  {
  }

  /** A header, a body and what follows them, taken apart again. */
  lemma FrameParts(header: seq<byte>, body: seq<byte>, tail: seq<byte>)
    requires |header| == HEADER
    ensures var s := header + body + tail;
            && s == header + (body + tail)
            && s[..HEADER] == header && s[HEADER..HEADER + |body|] == body && s[HEADER + |body|..] == tail
  {
  }

  /** A frame of acceptable length is decrypted and handed to the registry, whatever that makes of it. */
  lemma FrameIsDecoded(registry: Registry, lane: Lane, p: Packet, tail: seq<byte>)
    requires IsPacket(p) && Payload(p).Ok? && FrameLength(p) <= MAX_FRAME
    ensures var (frame, lane') := Frame(lane, p).value;
            && |frame| == FrameLength(p)
            && ParseFrame(registry, lane, frame + tail) ==
               match DecodePacket(registry, p.id, Payload(p).value)
               case Ok(q) => Parsed(q, |frame|, lane')
               case Err(e) => Failed(e, lane', frame[..HEADER] + Payload(p).value + tail)
  {
    hide DecodePacket, Payload, EncryptLane, DecryptLane, Header, FromBigEndian;
    var payload := Payload(p).value;
    var header, body := Header(p.id, HEADER + |payload|), EncryptLane(lane, payload).0;
    FrameParts(header, body, tail);
    FrameParts(header, body, []);
    assert header + body + [] == header + body;
    HeaderReads(p.id, HEADER + |payload|, body + tail);
    LaneStep(lane, payload);
  }

  /**
    The front of a stream that starts with a frame: too short, it asks for more; long enough, it yields the packet
    and consumes exactly the frame, with the receiving lane where the sending lane went.
   */
  lemma FrontOfFrame(registry: Registry, lane: Lane, p: Packet, tail: seq<byte>, unread: seq<byte>)
    requires Deliverable(registry, p)
    requires unread <= Frame(lane, p).value.0 + tail
    ensures var (frame, lane') := Frame(lane, p).value;
            && |frame| == FrameLength(p)
            && (|unread| < |frame| ==> ParseFrame(registry, lane, unread).NeedMore?)
            && (|unread| >= |frame| ==> ParseFrame(registry, lane, unread) == Parsed(p, |frame|, lane'))
  {
    hide DecodePacket, Payload, Understood, EncryptLane;
    var (frame, lane') := Frame(lane, p).value;
    if |unread| >= |frame| {
      hide ParseFrame, Frame;
      var rest := unread[|frame|..];
      assert unread[..|frame|] == (frame + tail)[..|frame|] == frame;
      assert unread == frame + rest;
      FrameIsDecoded(registry, lane, p, rest);
      DecodePacketInverts(registry, p);
    } else if |unread| >= HEADER {
      HeaderOfFront(lane, p, tail, unread);
    }
  }

  lemma HeaderOfFront(lane: Lane, p: Packet, tail: seq<byte>, unread: seq<byte>)
    requires IsPacket(p) && Payload(p).Ok? && FrameLength(p) < U32_LIMIT
    requires HEADER <= |unread| && unread <= Frame(lane, p).value.0 + tail
    ensures FromBigEndian(unread[..4]) == FrameLength(p) && FromBigEndian(unread[4..8]) == p.id
  {
    hide Payload, EncryptLane, Header, FromBigEndian;
    var payload := Payload(p).value;
    var header, body := Header(p.id, HEADER + |payload|), EncryptLane(lane, payload).0;
    FrameParts(header, body, tail);
    HeaderReads(p.id, HEADER + |payload|, body + tail);
    var s := header + (body + tail);
    assert unread[..4] == s[..4] && unread[4..8] == s[4..8];
  }

  /**
    A frame arrives as the packet that was sent exactly when it is at most 64 MiB long and the receiver understands
    it. The sender checks neither: a longer frame ends the connection, or, from 4 GiB on, lies about its length.
   */
  lemma FrameArrivesIff(registry: Registry, lane: Lane, p: Packet, tail: seq<byte>)
    requires IsPacket(p) && Payload(p).Ok?
    ensures var (frame, lane') := Frame(lane, p).value;
            ParseFrame(registry, lane, frame + tail) == Parsed(p, |frame|, lane') <==> Deliverable(registry, p)
  {
    var (frame, lane') := Frame(lane, p).value;
    if FrameLength(p) <= MAX_FRAME {
      hide DecodePacket, Understood, Payload, ParseFrame;
      FrameIsDecoded(registry, lane, p, tail);
      DecodePacketInverts(registry, p);
    }
  }

  /** Sending fails for no other reason, says so, and then leaves the connection as it was. */
  lemma SendFailsIff(conn: Conn, p: Packet)
    requires IsPacket(p)
    ensures var (conn', failure) := SendPacket(conn, p);
            && (failure.Some? <==> p.TypedPacket? && !AllKnown(p.fields))
            && (failure.Some? ==> failure == Some(CodecFailure(EnumUnknown)) && conn' == conn)
  {
    hide Payload;
    PayloadFailsIff(p);
  }

  /** A frame whose payload was cut short, with a length that says so, ends the connection with the reason. */
  lemma CutFrameIsRefused(registry: Registry, lane: Lane, p: Packet, k: nat, tail: seq<byte>)
    requires p.TypedPacket? && Deliverable(registry, p) && k < |Payload(p).value|
    ensures var (frame, lane') := Frame(lane, UnknownPacket(p.id, Payload(p).value[..k])).value;
            var parsed := ParseFrame(registry, lane, frame + tail);
            parsed.Failed? && parsed.error == CodecFailure(UnexpectedEof) && parsed.lane == lane'
  {
    hide ParseFrame, DecodePacket;
    FrameIsDecoded(registry, lane, UnknownPacket(p.id, Payload(p).value[..k]), tail);
    CutPayloadIsRefused(registry, p, k);
  }

  /** What becomes of a frame between the two limits: the receiver reports its true length and gives up. */
  lemma OversizedEndsConnection(registry: Registry, lane: Lane, p: Packet, tail: seq<byte>)
    requires IsPacket(p) && Payload(p).Ok? && MAX_FRAME < FrameLength(p) < U32_LIMIT
    ensures var s := Frame(lane, p).value.0 + tail;
            ParseFrame(registry, lane, s) == Failed(PacketTooLarge(FrameLength(p)), lane, s)
  {
    hide Payload, EncryptLane, Header, FromBigEndian, Frame;
    HeaderOfFront(lane, p, tail, Frame(lane, p).value.0 + tail);
  }

  /** Such a packet: 64 MiB of payload, which anybody may send and nobody accepts. */
  lemma FullPayloadIsTooLarge(registry: Registry, lane: Lane, id: nat, tail: seq<byte>)
    requires id < U32_LIMIT
    ensures var s := Frame(lane, UnknownPacket(id, seq(MAX_FRAME, _ => 0))).value.0 + tail;
            ParseFrame(registry, lane, s) == Failed(PacketTooLarge(MAX_FRAME + HEADER), lane, s)
  {
    hide Frame, ParseFrame;
    OversizedEndsConnection(registry, lane, UnknownPacket(id, seq(MAX_FRAME, _ => 0)), tail);
  }

  /**
    What a proxy relies on: a packet that was parsed can be framed again, in no more bytes, and any receiver with the
    same registry gets it as it is.
   */
  lemma ParsedCanBeForwarded(registry: Registry, lane: Lane, s: seq<byte>)
    requires ParseFrame(registry, lane, s).Parsed?
    ensures var parsed := ParseFrame(registry, lane, s);
            Deliverable(registry, parsed.packet) && FrameLength(parsed.packet) <= parsed.length
  {
    hide DecodePacket, Payload, Understood;
    assert Pow256(4) == U32_LIMIT;
    var length, id := FromBigEndian(s[..4]), FromBigEndian(s[4..8]);
    DecodedPacketForwards(registry, id, DecryptLane(lane, s[HEADER..length]).0);
  }

  /**
    A proxy that passes unknown packets on is transparent: what it puts on the wire for a packet it does not know is,
    under any cipher, what the sender itself would have put there.
   */
  lemma ProxyIsTransparent(registry: Registry, lane: Lane, onward: Lane, p: Packet, tail: seq<byte>)
    requires IsPacket(p) && Payload(p).Ok? && FrameLength(p) <= MAX_FRAME && p.id !in registry.packets
    ensures var (frame, lane') := Frame(lane, p).value;
            var passed := UnknownPacket(p.id, Payload(p).value);
            && (if registry.decodeAsUnknown then ParseFrame(registry, lane, frame + tail) == Parsed(passed, |frame|, lane')
                else ParseFrame(registry, lane, frame + tail)
                     == Failed(PacketUnknownId(AsI32(p.id)), lane', frame[..HEADER] + Payload(p).value + tail))
            && Frame(onward, passed) == Frame(onward, p)
  {
    hide ParseFrame, EncryptLane, Header, EncodeFields;
    FrameIsDecoded(registry, lane, p, tail);
  }

  // ---------------------------------------------------------------- bytes left over

  /** The guard of the warning about bytes a decoder did not read: it complements the 64-bit position. */
  predicate WarnsOfLeftover(position: nat, length: nat) {
    0xFFFF_FFFF_FFFF_FFFF - position < length
  }

  /** So it never warns of a payload of realistic size, and is right exactly when nothing was left over. */
  lemma WarningIsRightIff(position: nat, length: nat)
    requires position <= length < 0x8000_0000_0000_0000
    ensures !WarnsOfLeftover(position, length)
    ensures (WarnsOfLeftover(position, length) <==> position < length) <==> position == length
  {
  }

  /** A frame with anything behind its fields is taken for the packet alone, and no warning is given. */
  lemma LeftoverGoesUnnoticed(registry: Registry, lane: Lane, p: Packet, junk: seq<byte>, tail: seq<byte>)
    requires p.TypedPacket? && Deliverable(registry, p) && FrameLength(p) + |junk| <= MAX_FRAME
    ensures var payload := Payload(p).value;
            var (frame, lane') := Frame(lane, UnknownPacket(p.id, payload + junk)).value;
            && ParseFrame(registry, lane, frame + tail) == Parsed(p, FrameLength(p) + |junk|, lane')
            && !WarnsOfLeftover(|payload|, |payload + junk|)
  {
    hide ParseFrame, DecodePacket;
    var payload := Payload(p).value;
    FrameIsDecoded(registry, lane, UnknownPacket(p.id, payload + junk), tail);
    DecodePacketInverts(registry, p);
    LeftoverIsIgnored(registry, p.id, payload, junk);
    WarningIsRightIff(|payload|, |payload + junk|);
  }

  // ---------------------------------------------------------------- more bytes

  /** The slices a parser takes of a stream, when more bytes are put behind it. */
  lemma SlicesStay(s: seq<byte>, more: seq<byte>, length: nat)
    requires HEADER <= |s|
    ensures (s + more)[..4] == s[..4] && (s + more)[4..8] == s[4..8] && (s + more)[..HEADER] == s[..HEADER]
    ensures HEADER <= length <= |s| ==>
              (s + more)[HEADER..length] == s[HEADER..length] && (s + more)[length..] == s[length..] + more
  {
  }

  /** More bytes behind a frame do not change how it is parsed. */
  lemma ParseIsLocal(registry: Registry, lane: Lane, s: seq<byte>, more: seq<byte>)
    ensures match ParseFrame(registry, lane, s)
            case NeedMore(_) => true
            case Parsed(p, n, lane') => n <= |s| && ParseFrame(registry, lane, s + more) == Parsed(p, n, lane')
            case Failed(e, lane', buffer) => ParseFrame(registry, lane, s + more) == Failed(e, lane', buffer + more)
  {
    hide FromBigEndian, DecryptLane, DecodePacket;
    if |s| >= HEADER {
      var length := FromBigEndian(s[..4]);
      SlicesStay(s, more, length);
      if HEADER <= length <= |s| {
        var payload := DecryptLane(lane, s[HEADER..length]).0;
        assert s[..HEADER] + payload + (s[length..] + more) == s[..HEADER] + payload + s[length..] + more;
      }
    }
  }

  // ---------------------------------------------------------------- one poll

  /** The bytes a socket still has to deliver. */
  function DataOf(events: seq<ReadEvent>): seq<byte> {
    if events == [] then []
    else (if events[0].Data? then events[0].bytes else []) + DataOf(events[1..])
  }

  lemma SocketReadTakesFront(events: seq<ReadEvent>, space: nat)
    ensures var (outcome, rest) := SocketRead(events, space);
            DataOf(events) == (if outcome.IoReady? then outcome.value else []) + DataOf(rest)
  {
    hide DataOf;
    if events == [] {
      NoDataLeft();
    } else {
      DataOfEvents(events);
      if events[0].Data? {
        CutBytes(events[0].bytes, Min(|events[0].bytes|, space), events[1..]);
      }
    }
  }

  lemma NoDataLeft()
    ensures DataOf([]) == [] && [] + DataOf([]) == []
  {
  }

  lemma DataOfEvents(events: seq<ReadEvent>)
    requires events != []
    ensures DataOf(events) == (if events[0].Data? then events[0].bytes else []) + DataOf(events[1..])
  {
  }

  /** The part of a delivery that did not fit stays in front of the other events. */
  lemma CutBytes(bytes: seq<byte>, n: nat, events: seq<ReadEvent>)
    requires n <= |bytes|
    ensures bytes + DataOf(events) == bytes[..n] + DataOf(if n < |bytes| then [Data(bytes[n..])] + events else events)
  {
    hide DataOf;
    assert bytes == bytes[..n] + bytes[n..];
    if n < |bytes| {
      DataOfHead(bytes[n..], events);
      assert bytes[..n] + (bytes[n..] + DataOf(events)) == bytes[..n] + bytes[n..] + DataOf(events);
    }
  }

  lemma DataOfHead(bytes: seq<byte>, events: seq<ReadEvent>)
    ensures DataOf([Data(bytes)] + events) == bytes + DataOf(events)
  {
    assert ([Data(bytes)] + events)[1..] == events;
  }

  /** What a poll may do once it has `unread` bytes: exactly what parsing them once says. */
  predicate ReadOutcome(conn: Conn, unread: seq<byte>, conn': Conn, poll: Poll) {
    && conn' == conn.(recv := conn'.recv, recvLen := conn'.recvLen, cipher := conn'.cipher)
    && match ParseFrame(conn.registry, conn.cipher.decrypt, unread)
       case NeedMore(_) =>
         && conn'.recv == unread && conn'.cipher == conn.cipher
         && (poll.Pending? || (poll.item.Err? && poll.item.error.ConnectionClosed?))
       case Parsed(p, n, lane) =>
         && poll == Ready(Ok(p)) && n <= |unread|
         && conn'.recv == unread[n..] && conn'.cipher == conn.cipher.(decrypt := lane)
       case Failed(e, lane, buffer) =>
         && poll == Ready(Err(e))
         && conn'.recv == buffer && conn'.cipher == conn.cipher.(decrypt := lane)
  }

  /** One parse without a read: either it settles the poll, or the poll may stop here with nothing changed. */
  lemma TryParseOutcome(conn: Conn, closed: ProtocolError)
    requires closed.ConnectionClosed?
    ensures var (tried, poll) := TryParse(conn);
            && (poll.Ready? ==> ReadOutcome(conn, conn.recv, tried, poll))
            && (poll.Pending? ==> tried == conn.(recvLen := tried.recvLen))
            && (poll.Pending? ==> ReadOutcome(conn, conn.recv, tried, Pending))
            && (poll.Pending? ==> ReadOutcome(conn, conn.recv, tried, Ready(Err(closed))))
  {
    hide ParseFrame;
    ParsedLength(conn.registry, conn.cipher.decrypt, conn.recv);
  }

  /** The length of the buffer and what was read so far do not matter for the outcome. */
  lemma OutcomeCarriesOver(conn: Conn, start: Conn, unread: seq<byte>, conn': Conn, poll: Poll)
    requires start == conn.(recv := start.recv, recvLen := start.recvLen)
    requires ReadOutcome(start, unread, conn', poll)
    ensures ReadOutcome(conn, unread, conn', poll)
  {
    hide ParseFrame;
  }

  /** Reading in chunks and parsing after each is the same as appending all of them and parsing once. */
  lemma {:induction false} ReadLoopParsesOnce(conn: Conn, incoming: seq<ReadEvent>) returns (consumed: seq<byte>)
    ensures var (conn', poll, incoming') := ReadLoop(conn, incoming);
            && DataOf(incoming) == consumed + DataOf(incoming')
            && ReadOutcome(conn, conn.recv + consumed, conn', poll)
    decreases Weight(incoming)
  {
    hide TryParse, ReadOutcome, SocketRead, DataOf, Weight;
    consumed := [];
    assert conn.recv + consumed == conn.recv && [] + DataOf(incoming) == DataOf(incoming);
    var (tried, poll) := TryParse(conn);
    TryParseOutcome(conn, ConnectionClosed(Disconnected));
    TryParseOutcome(conn, ConnectionClosed(ReadError));
    if poll.Pending? {
      var space := if tried.recvLen >= |tried.recv| then tried.recvLen - |tried.recv| else 0;
      var (outcome, rest) := SocketRead(incoming, space);
      SocketReadTakesFront(incoming, space);
      if outcome.IoReady? && outcome.value != [] {
        ReadIsProgress(incoming, space);
        var start := tried.(recv := tried.recv + outcome.value);
        var more := ReadLoopParsesOnce(start, rest);
        consumed := outcome.value + more;
        assert conn.recv + consumed == start.recv + more;
        assert outcome.value + (more + DataOf(ReadLoop(start, rest).2)) == consumed + DataOf(ReadLoop(start, rest).2);
        OutcomeCarriesOver(conn, start, start.recv + more, ReadLoop(start, rest).0, ReadLoop(start, rest).1);
      }
    }
  }

  // ---------------------------------------------------------------- whole streams

  /** The packets of a byte stream, what is left after them, and the error that ends it, if any. */
  datatype Stream = Stream(packets: seq<Packet>, lane: Lane, rest: seq<byte>, error: Option<ProtocolError>)

  function ParseStream(registry: Registry, lane: Lane, s: seq<byte>): Stream
    decreases |s|
  {
    match ParseFrame(registry, lane, s)
    case NeedMore(_) => Stream([], lane, s, None)
    case Failed(e, lane', buffer) => Stream([], lane', buffer, Some(e))
    case Parsed(p, n, lane') =>
      ParsedLength(registry, lane, s);
      Prepend([p], ParseStream(registry, lane', s[n..]))
  }

  function Prepend(packets: seq<Packet>, stream: Stream): Stream {
    stream.(packets := packets + stream.packets)
  }

  lemma PrependTwice(a: seq<Packet>, b: seq<Packet>, stream: Stream)
    ensures Prepend(a, Prepend(b, stream)) == Prepend(a + b, stream)
  {
    assert a + (b + stream.packets) == a + b + stream.packets;
  }

  lemma PrependNone(stream: Stream)
    ensures Prepend([], stream) == stream
  {
    assert [] + stream.packets == stream.packets;
  }

  lemma ParsedLength(registry: Registry, lane: Lane, s: seq<byte>)
    ensures ParseFrame(registry, lane, s).Parsed? ==> HEADER <= ParseFrame(registry, lane, s).length <= |s|
  {
  }

  /** A stream can be parsed piece by piece. */
  lemma {:induction false} ParseStreamContinues(registry: Registry, lane: Lane, s: seq<byte>, more: seq<byte>)
    ensures var front := ParseStream(registry, lane, s);
            var whole := ParseStream(registry, lane, s + more);
            if front.error.Some? then whole == front.(rest := front.rest + more)
            else whole == Prepend(front.packets, ParseStream(registry, front.lane, front.rest + more))
    decreases |s|
  {
    hide ParseFrame;
    ParseIsLocal(registry, lane, s, more);
    match ParseFrame(registry, lane, s)
    case NeedMore(_) => PrependNone(ParseStream(registry, lane, s + more));
    case Failed(_, _, _) =>
    case Parsed(p, n, lane') =>
      ParsedLength(registry, lane, s);
      ParseStreamContinues(registry, lane', s[n..], more);
      assert (s + more)[n..] == s[n..] + more;
      var front := ParseStream(registry, lane', s[n..]);
      if front.error.None? {
        PrependTwice([p], front.packets, ParseStream(registry, front.lane, front.rest + more));
      }
  }
}
