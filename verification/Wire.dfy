/**
  Frames, and a connection as a function of its state and of what its socket does next. Connection.dfy proves the
  running connection against these functions.
 */
module Wire {
  import opened Wrappers
  import opened Bytes
  import opened Codec
  import opened Cipher
  import opened Packets

  const HEADER: nat := 8
  const MAX_FRAME: nat := 1024 * 1024 * 64
  const READ_SPACE: nat := 1024

  // ---------------------------------------------------------------- frames

  /** Total length, cast to 32 bits without a check, and packet id. */
  function Header(id: nat, length: nat): (h: seq<byte>)
    requires id < U32_LIMIT
    ensures |h| == HEADER
  {
    assert Pow256(4) == U32_LIMIT;
    EncodeLength(length) + BigEndian(id, 4)
  }

  /** The header and the encrypted payload. */
  function Frame(lane: Lane, p: Packet): (r: Result<(seq<byte>, Lane), CodecError>)
    requires IsPacket(p)
    ensures r.Ok? <==> Payload(p).Ok?
    ensures r.Ok? ==> |r.value.0| == HEADER + |Payload(p).value|
  {
    var payload :- Payload(p);
    var (body, lane') := EncryptLane(lane, payload);
    Ok((Header(p.id, HEADER + |payload|) + body, lane'))
  }

  datatype Parse =
    | NeedMore(expected: nat)
    | Parsed(packet: Packet, length: nat, lane: Lane)
    | Failed(error: ProtocolError, lane: Lane, buffer: seq<byte>)

  /** Looks at the start of the unread bytes. A frame whose payload is refused stays there, decrypted. */
  function ParseFrame(registry: Registry, lane: Lane, unread: seq<byte>): Parse {
    if |unread| < HEADER then NeedMore(0)
    else
      var length, id := FromBigEndian(unread[..4]), FromBigEndian(unread[4..8]);
      if length > MAX_FRAME then Failed(PacketTooLarge(length), lane, unread)
      else if length < HEADER then Failed(PacketTooSmall(length), lane, unread)
      else if |unread| < length then NeedMore(length)
      else
        var (payload, lane') := DecryptLane(lane, unread[HEADER..length]);
        match DecodePacket(registry, id, payload)
        case Ok(packet) => Parsed(packet, length, lane')
        case Err(error) => Failed(error, lane', unread[..HEADER] + payload + unread[length..])
  }

  // ---------------------------------------------------------------- sockets

  /** What a socket does when it is read. Bytes that do not fit the offered space stay for the next read. */
  datatype ReadEvent = Data(bytes: seq<byte>) | ReadFails | ReadPends

  /** What a socket does when it is written: it takes at most `limit` bytes. */
  datatype WriteEvent = Accepts(limit: nat) | WriteFails | WritePends

  datatype IoResult<T> = IoPending | IoError | IoReady(value: T)

  function Min(a: nat, b: nat): nat {
    if a <= b then a else b
  }

  /** One read into `space` bytes: the bytes delivered, and the events that remain. A silent socket is pending. */
  function SocketRead(events: seq<ReadEvent>, space: nat): (r: (IoResult<seq<byte>>, seq<ReadEvent>))
    ensures r.0.IoReady? ==> |r.0.value| <= space
  {
    if events == [] then (IoPending, [])
    else
      match events[0]
      case Data(bytes) =>
        var n := Min(|bytes|, space);
        (IoReady(bytes[..n]), if n < |bytes| then [Data(bytes[n..])] + events[1..] else events[1..])
      case ReadFails => (IoError, events[1..])
      case ReadPends => (IoPending, events[1..])
  }

  function SocketWrite(events: seq<WriteEvent>, offered: nat): (r: (IoResult<nat>, seq<WriteEvent>))
    ensures r.0.IoReady? ==> r.0.value <= offered
  {
    if events == [] then (IoPending, [])
    else
      match events[0]
      case Accepts(limit) => (IoReady(Min(limit, offered)), events[1..])
      case WriteFails => (IoError, events[1..])
      case WritePends => (IoPending, events[1..])
  }

  /** What is left to happen on the reading side: every event and every byte counts once. */
  function Weight(events: seq<ReadEvent>): nat {
    if events == [] then 0
    else 1 + (if events[0].Data? then |events[0].bytes| else 0) + Weight(events[1..])
  }

  lemma ReadIsProgress(events: seq<ReadEvent>, space: nat)
    requires SocketRead(events, space).0.IoReady? && SocketRead(events, space).0.value != []
    ensures Weight(SocketRead(events, space).1) < Weight(events)
  {
    var rest := SocketRead(events, space).1;
    if rest != events[1..] {
      assert rest[1..] == events[1..];
    }
  }

  // ---------------------------------------------------------------- connections

  /** `recv` is the part of the receive buffer that holds unread bytes, `recvLen` the length of the whole buffer. */
  datatype Conn = Conn(
    isServer: bool,
    cipher: CipherState,
    disconnected: bool,
    recv: seq<byte>,
    recvLen: nat,
    send: seq<byte>,
    registry: Registry)

  datatype Poll = Pending | Ready(item: Result<Packet, ProtocolError>)

  datatype Net = Net(incoming: seq<ReadEvent>, outgoing: seq<WriteEvent>)

  function SendPacket(conn: Conn, p: Packet): (Conn, Option<ProtocolError>)
    requires IsPacket(p)
  {
    match Frame(conn.cipher.encrypt, p)
    case Err(e) => (conn, Some(CodecFailure(e)))
    case Ok((frame, lane)) => (conn.(cipher := conn.cipher.(encrypt := lane), send := conn.send + frame), None)
  }

  function Max(a: nat, b: nat): nat {
    if a >= b then a else b
  }

  function TryParse(conn: Conn): (Conn, Poll) {
    match ParseFrame(conn.registry, conn.cipher.decrypt, conn.recv)
    case NeedMore(expected) => (conn.(recvLen := Max(conn.recvLen, expected)), Pending)
    case Parsed(packet, length, lane) =>
      assert length <= |conn.recv|;
      (conn.(cipher := conn.cipher.(decrypt := lane), recv := conn.recv[length..]), Ready(Ok(packet)))
    case Failed(error, lane, buffer) =>
      (conn.(cipher := conn.cipher.(decrypt := lane), recv := buffer), Ready(Err(error)))
  }

  function EnsureSpace(conn: Conn): Conn {
    if conn.recvLen < |conn.recv| + READ_SPACE then conn.(recvLen := conn.recvLen + READ_SPACE) else conn
  }

  function PollIncoming(conn: Conn, incoming: seq<ReadEvent>): (Conn, Poll, seq<ReadEvent>) {
    ReadLoop(EnsureSpace(conn), incoming)
  }

  function ReadLoop(conn: Conn, incoming: seq<ReadEvent>): (Conn, Poll, seq<ReadEvent>)
    decreases Weight(incoming)
  {
    var (conn, poll) := TryParse(conn);
    if poll.Ready? then (conn, poll, incoming)
    else
      var space := if conn.recvLen >= |conn.recv| then conn.recvLen - |conn.recv| else 0;
      match SocketRead(incoming, space)
      case (IoPending, incoming') => (conn, Pending, incoming')
      case (IoError, incoming') => (conn, Ready(Err(ConnectionClosed(ReadError))), incoming')
      case (IoReady(bytes), incoming') =>
        if bytes == [] then (conn, Ready(Err(ConnectionClosed(Disconnected))), incoming')
        else
          ReadIsProgress(incoming, space);
          ReadLoop(conn.(recv := conn.recv + bytes), incoming')
  }

  /** The bytes the socket took, whether it failed, and the events that remain. */
  function WriteLoop(send: seq<byte>, outgoing: seq<WriteEvent>): (r: (nat, bool, seq<WriteEvent>))
    ensures r.0 <= |send|
    decreases |outgoing|
  {
    if send == [] then (0, false, outgoing)
    else
      match SocketWrite(outgoing, |send|)
      case (IoPending, outgoing') => (0, false, outgoing')
      case (IoError, outgoing') => (0, true, outgoing')
      case (IoReady(n), outgoing') =>
        var (more, failed, rest) := WriteLoop(send[n..], outgoing');
        (n + more, failed, rest)
  }

  /** Flush, then read: the two halves of one poll, with a terminal error remembered. */
  datatype Polled = Polled(conn: Conn, item: Option<Poll>, net: Net, accepted: seq<byte>)

  /** `item` is `None` when the stream has ended. */
  function PollNext(conn: Conn, net: Net): Polled {
    if conn.disconnected then Polled(conn, None, net, [])
    else
      var (n, failed, outgoing') := WriteLoop(conn.send, net.outgoing);
      var accepted := conn.send[..n];
      var conn := conn.(send := conn.send[n..]);
      if failed then
        Polled(conn.(disconnected := true), Some(Ready(Err(ConnectionClosed(WriteError)))), net.(outgoing := outgoing'), accepted)
      else
        var (conn, poll, incoming') := PollIncoming(conn, net.incoming);
        var dead := poll.Ready? && poll.item.Err?;
        Polled(conn.(disconnected := dead), Some(poll), Net(incoming', outgoing'), accepted)
  }
}
