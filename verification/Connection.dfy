/** The running connection: buffers that grow, shift and are decrypted in place, over a socket. */
module Connections {
  import opened Wrappers
  import opened Bytes
  import opened Codec
  import opened CodecIO
  import opened Cipher
  import opened XorCiphers
  import opened Packets
  import opened Wire
  import opened Handshakes

  /** A socket whose behaviour is whatever the two event lists say. */
  class Socket {
    var incoming: seq<ReadEvent>
    var outgoing: seq<WriteEvent>
    var accepted: seq<byte>

    constructor (incoming: seq<ReadEvent>, outgoing: seq<WriteEvent>)
      ensures this.incoming == incoming && this.outgoing == outgoing && accepted == []
    {
      this.incoming, this.outgoing, this.accepted := incoming, outgoing, [];
    }

    /** Fills a part of `buffer[from..]`; the result is how many bytes were filled. */
    method PollRecv(buffer: array<byte>, from: nat) returns (r: IoResult<nat>)
      requires from <= buffer.Length
      modifies this`incoming, buffer
      ensures var (outcome, rest) := SocketRead(old(incoming), buffer.Length - from);
              && incoming == rest
              && match outcome
                 case IoReady(bytes) => r == IoReady(|bytes|) && buffer[..from + |bytes|] == old(buffer[..from]) + bytes
                 case IoPending => r == IoPending && buffer[..from] == old(buffer[..from])
                 case IoError => r == IoError && buffer[..from] == old(buffer[..from])
    {
      var (outcome, rest) := SocketRead(incoming, buffer.Length - from);
      incoming := rest;
      match outcome {
        case IoReady(bytes) =>
          forall i | 0 <= i < |bytes| {
            buffer[from + i] := bytes[i];
          }
          return IoReady(|bytes|);
        case IoPending => return IoPending;
        case IoError => return IoError;
      }
    }

    method PollSend(bytes: seq<byte>) returns (r: IoResult<nat>)
      modifies this`outgoing, this`accepted
      ensures var (outcome, rest) := SocketWrite(old(outgoing), |bytes|);
              && r == outcome && outgoing == rest
              && accepted == if outcome.IoReady? then old(accepted) + bytes[..outcome.value] else old(accepted)
    {
      var (outcome, rest) := SocketWrite(outgoing, |bytes|);
      outgoing := rest;
      if outcome.IoReady? {
        accepted := accepted + bytes[..outcome.value];
      }
      return outcome;
    }
  }

  /** A buffer of which only `[from..to]` changed, cut at `end`. */
  lemma Spliced(before: seq<byte>, after: seq<byte>, from: nat, to: nat, end: nat)
    requires from <= to <= end <= |before| == |after|
    requires before[..from] == after[..from] && before[to..] == after[to..]
    ensures after[..end] == before[..end][..from] + after[from..to] + before[..end][to..]
  {
    assert after[..end][to..] == after[to..][..end - to];
    assert before[..end][to..] == before[to..][..end - to];
    assert after[..end] == after[..from] + after[from..to] + after[..end][to..];
  }

  /** `total` bytes into the write loop `whole`, `rest` is what the loop still does. */
  ghost predicate WroteSome(whole: (nat, bool, seq<WriteEvent>), total: nat, rest: (nat, bool, seq<WriteEvent>)) {
    whole == (total + rest.0, rest.1, rest.2)
  }

  lemma TakeMore(s: seq<byte>, m: nat, n: nat)
    requires m + n <= |s|
    ensures s[..m + n] == s[..m] + s[m..][..n]
    ensures s[m..][n..] == s[m + n..]
  {
  }

  class Connection {
    const isServer: bool
    const socket: Socket
    const registry: PacketRegistry

    /** Null stands for the plain cipher. */
    var crypt: XorCipher?
    var disconnected: bool

    var recvBuffer: array<byte>
    var recvIndex: nat
    var sendBuffer: seq<byte>

    ghost predicate Valid()
      reads this, crypt
    {
      && recvIndex <= recvBuffer.Length
      && (crypt != null ==> crypt.Valid() && recvBuffer != crypt.encryptKey && recvBuffer != crypt.decryptKey)
    }

    ghost function CryptRepr(): set<object?>
      reads this
    {
      if crypt == null then {crypt} else {crypt, crypt.encryptKey, crypt.decryptKey}
    }

    ghost function Repr(): set<object?>
      reads this
    {
      {this, socket, recvBuffer} + CryptRepr()
    }

    ghost function CipherState(): CipherState
      requires Valid()
      reads this, crypt, Repr()
    {
      if crypt == null then PLAIN else crypt.State()
    }

    ghost function Unread(): seq<byte>
      requires Valid()
      reads this, crypt, Repr()
    {
      recvBuffer[..recvIndex]
    }

    ghost function State(): Conn
      requires Valid()
      reads this, crypt, Repr(), registry
    {
      Conn(isServer, CipherState(), disconnected, Unread(), recvBuffer.Length, sendBuffer, registry.State())
    }

    constructor (isServer: bool, socket: Socket, registry: PacketRegistry)
      ensures Valid() && crypt == null && fresh(recvBuffer)
      ensures this.isServer == isServer && this.socket == socket && this.registry == registry
      ensures State() == Conn(isServer, PLAIN, false, [], 0, [], registry.State())
    {
      this.isServer := isServer;
      this.socket := socket;
      this.registry := registry;
      crypt := null;
      disconnected := false;
      recvBuffer := new byte[0];
      recvIndex := 0;
      sendBuffer := [];
    }

    /** The frame of `p` with its payload still plain. */
    static method BuildFrame(p: Packet) returns (r: Result<array<byte>, CodecError>)
      requires IsPacket(p)
      ensures match Payload(p)
              case Err(e) => r == Err(e)
              case Ok(payload) =>
                && r.Ok? && fresh(r.value)
                && r.value.Length == HEADER + |payload| && r.value[HEADER..] == payload
                && r.value[..HEADER] == Header(p.id, HEADER + |payload|)
    {
      var w := new Writer();
      w.WriteAll(Header(p.id, 0));
      var error := EncodePayload(p, w);
      if error.Some? {
        return Err(error.value);
      }
      var length := |w.written|;
      var frame := Header(p.id, length) + w.written[HEADER..];
      var buffer := new byte[length](i requires 0 <= i < length => frame[i]);
      assert buffer[..] == frame;
      assert w.written[HEADER..] == Payload(p).value;
      return Ok(buffer);
    }

    method EncryptFrame(buffer: array<byte>)
      requires Valid() && HEADER <= buffer.Length && buffer !in Repr()
      modifies CryptRepr(), buffer
      ensures Valid() && State() == old(State()).(cipher := CipherState())
      ensures (buffer[HEADER..], CipherState().encrypt) == EncryptLane(old(CipherState().encrypt), old(buffer[HEADER..]))
      ensures CipherState().decrypt == old(CipherState().decrypt)
      ensures buffer[..HEADER] == old(buffer[..HEADER])
    {
      if crypt != null {
        assert buffer[HEADER..buffer.Length] == buffer[HEADER..];
        crypt.Encrypt(buffer, HEADER, buffer.Length);
        assert buffer[HEADER..buffer.Length] == buffer[HEADER..];
      }
    }

    /** A packet that cannot be encoded leaves the connection as it was. */
    method Send(p: Packet) returns (failure: Option<ProtocolError>)
      requires Valid() && IsPacket(p)
      modifies this`sendBuffer, CryptRepr()
      ensures Valid()
      ensures (State(), failure) == SendPacket(old(State()), p)
    {
      var frame := BuildFrame(p);
      if frame.Err? {
        return Some(CodecFailure(frame.error));
      }
      var buffer := frame.value;
      EncryptFrame(buffer);
      assert buffer[..] == buffer[..HEADER] + buffer[HEADER..];
      sendBuffer := sendBuffer + buffer[..];
      return None;
    }

    /** The payload of a complete frame is decrypted where it lies. */
    method DecryptPayload(length: nat)
      requires Valid() && HEADER <= length <= recvIndex
      modifies recvBuffer, CryptRepr()
      ensures Valid()
      ensures var (payload, lane) := DecryptLane(old(CipherState().decrypt), old(Unread())[HEADER..length]);
              && recvBuffer[HEADER..length] == payload
              && State() == old(State()).(cipher := old(CipherState()).(decrypt := lane),
                   recv := old(Unread())[..HEADER] + payload + old(Unread())[length..])
    {
      ghost var before := recvBuffer[..];
      assert Unread()[HEADER..length] == recvBuffer[HEADER..length];
      if crypt != null {
        crypt.Decrypt(recvBuffer, HEADER, length);
      }
      assert recvBuffer[HEADER..length] == recvBuffer[..][HEADER..length];
      assert recvBuffer[length..] == recvBuffer[..][length..];
      Spliced(before, recvBuffer[..], HEADER, length, recvIndex);
    }

    /** Drops a frame from the front of the buffer by moving everything behind it. */
    method ShiftOut(length: nat)
      requires Valid() && length <= recvIndex
      modifies this`recvIndex, recvBuffer
      ensures Valid() && State() == old(State()).(recv := old(Unread())[length..])
    {
      forall i | 0 <= i < recvBuffer.Length - length {
        recvBuffer[i] := recvBuffer[i + length];
      }
      recvIndex := recvIndex - length;
    }

    method Resize(length: nat)
      requires Valid() && recvBuffer.Length <= length
      modifies this`recvBuffer
      ensures Valid() && fresh(recvBuffer)
      ensures recvBuffer.Length == length && Unread() == old(Unread())
      ensures State() == old(State()).(recvLen := length)
    {
      var bytes := recvBuffer[..];
      var grown := new byte[length](i requires 0 <= i < length => if i < |bytes| then bytes[i] else 0);
      assert grown[..recvIndex] == recvBuffer[..recvIndex];
      recvBuffer := grown;
    }

    method TryParse() returns (poll: Poll)
      requires Valid()
      modifies this`recvBuffer, this`recvIndex, recvBuffer, CryptRepr()
      ensures Valid() && (recvBuffer == old(recvBuffer) || fresh(recvBuffer))
      ensures (State(), poll) == Wire.TryParse(old(State()))
    {
      if recvIndex < HEADER {
        return Pending;
      }
      ghost var unread := Unread();
      assert unread[..4] == recvBuffer[..4] && unread[4..8] == recvBuffer[4..8];
      var length, id := FromBigEndian(recvBuffer[..4]), FromBigEndian(recvBuffer[4..8]);
      if length > MAX_FRAME {
        return Ready(Err(PacketTooLarge(length)));
      } else if length < HEADER {
        return Ready(Err(PacketTooSmall(length)));
      }
      if recvIndex < length {
        if recvBuffer.Length < length {
          Resize(length);
        }
        return Pending;
      }
      poll := ParseComplete(length, id);
    }

    /** A whole frame is buffered: decrypt it, decode it, and drop it unless it is refused. */
    method ParseComplete(length: nat, id: nat) returns (poll: Poll)
      requires Valid() && HEADER <= length <= recvIndex
      modifies this`recvIndex, recvBuffer, CryptRepr()
      ensures Valid()
      ensures var (payload, lane) := DecryptLane(old(CipherState().decrypt), old(Unread())[HEADER..length]);
              var c' := old(CipherState()).(decrypt := lane);
              match DecodePacket(registry.State(), id, payload)
              case Ok(p) =>
                && poll == Ready(Ok(p))
                && State() == old(State()).(cipher := c', recv := old(Unread())[length..])
              case Err(e) =>
                && poll == Ready(Err(e))
                && State() == old(State()).(cipher := c',
                     recv := old(Unread())[..HEADER] + payload + old(Unread())[length..])
    {
      hide DecodePacket;
      hide DecryptLane;
      ghost var unread := Unread();
      DecryptPayload(length);
      var reader := new Reader(recvBuffer[HEADER..length]);
      var packet := registry.Decode(reader, id);
      if packet.Err? {
        return Ready(Err(packet.error));
      }
      ghost var decrypted := Unread();
      assert decrypted[length..] == unread[length..];
      ShiftOut(length);
      return Ready(Ok(packet.value));
    }

    /** One read into the free end of the buffer. */
    method ReadMore() returns (r: IoResult<nat>)
      requires Valid()
      modifies this`recvIndex, recvBuffer, socket`incoming
      ensures Valid()
      ensures var (outcome, rest) := SocketRead(old(socket.incoming), recvBuffer.Length - old(recvIndex));
              && socket.incoming == rest
              && match outcome
                 case IoReady(bytes) => r == IoReady(|bytes|) && State() == old(State()).(recv := old(Unread()) + bytes)
                 case IoPending => r == IoPending && State() == old(State())
                 case IoError => r == IoError && State() == old(State())
    {
      r := socket.PollRecv(recvBuffer, recvIndex);
      if r.IoReady? {
        recvIndex := recvIndex + r.value;
      }
    }

    /** One turn of the read loop; `done` is false when the loop goes on. */
    method ReadTurn() returns (done: bool, poll: Poll)
      requires Valid()
      modifies this`recvBuffer, this`recvIndex, recvBuffer, CryptRepr(), socket`incoming
      ensures Valid() && (recvBuffer == old(recvBuffer) || fresh(recvBuffer))
      ensures done ==> (State(), poll, socket.incoming) == ReadLoop(old(State()), old(socket.incoming))
      ensures !done ==> ReadLoop(State(), socket.incoming) == ReadLoop(old(State()), old(socket.incoming))
      ensures !done ==> Weight(socket.incoming) < Weight(old(socket.incoming))
    {
      hide Wire.TryParse;
      poll := TryParse();
      if poll.Ready? {
        return true, poll;
      }
      ghost var space, events := recvBuffer.Length - recvIndex, socket.incoming;
      ghost var unread := Unread();
      var length := ReadMore();
      match length {
        case IoReady(n) =>
          if n == 0 {
            assert Unread() == unread;
            return true, Ready(Err(ConnectionClosed(Disconnected)));
          }
          ReadIsProgress(events, space);
          return false, Pending;
        case IoError => return true, Ready(Err(ConnectionClosed(ReadError)));
        case IoPending => return true, Pending;
      }
    }

    method PollIncoming() returns (poll: Poll)
      requires Valid()
      modifies this`recvBuffer, this`recvIndex, recvBuffer, CryptRepr(), socket`incoming
      ensures Valid() && (recvBuffer == old(recvBuffer) || fresh(recvBuffer))
      ensures (State(), poll, socket.incoming) == Wire.PollIncoming(old(State()), old(socket.incoming))
    {
      hide ReadLoop;
      if recvBuffer.Length - recvIndex < READ_SPACE {
        Resize(recvBuffer.Length + READ_SPACE);
      }
      ghost var expected := ReadLoop(State(), socket.incoming);
      while true
        invariant Valid() && (recvBuffer == old(recvBuffer) || fresh(recvBuffer))
        invariant crypt == old(crypt)
        invariant ReadLoop(State(), socket.incoming) == expected
        decreases Weight(socket.incoming)
      {
        var done;
        done, poll := ReadTurn();
        if done {
          return;
        }
      }
    }

    /** Writes until the buffer is empty or the socket stops; true when the socket failed. */
    method WriteOut() returns (failed: bool)
      modifies this`sendBuffer, socket`outgoing, socket`accepted
      ensures var (n, failed', rest) := WriteLoop(old(sendBuffer), old(socket.outgoing));
              && failed == failed' && socket.outgoing == rest
              && socket.accepted == old(socket.accepted) + old(sendBuffer)[..n]
              && sendBuffer == old(sendBuffer)[n..]
    {
      ghost var bytes, total := sendBuffer, 0;
      ghost var whole := WriteLoop(sendBuffer, socket.outgoing);
      while sendBuffer != []
        invariant total <= |bytes| && sendBuffer == bytes[total..]
        invariant socket.accepted == old(socket.accepted) + bytes[..total]
        invariant WroteSome(whole, total, WriteLoop(sendBuffer, socket.outgoing))
        decreases |socket.outgoing|
      {
        var written := socket.PollSend(sendBuffer);
        match written {
          case IoReady(n) =>
            TakeMore(bytes, total, n);
            total := total + n;
            sendBuffer := sendBuffer[n..];
          case IoError => return true;
          case IoPending => return false;
        }
      }
      return false;
    }

    method PollOutgoing() returns (failed: bool)
      requires Valid()
      modifies this`sendBuffer, socket`outgoing, socket`accepted
      ensures Valid()
      ensures var (n, failed', rest) := WriteLoop(old(sendBuffer), old(socket.outgoing));
              && failed == failed' && socket.outgoing == rest
              && socket.accepted == old(socket.accepted) + old(sendBuffer)[..n]
              && State() == old(State()).(send := old(sendBuffer)[n..])
    {
      hide WriteLoop;
      failed := WriteOut();
    }

    /** Nothing is read or written any more. */
    method MarkDisconnected()
      requires Valid()
      modifies this`disconnected
      ensures Valid() && State() == old(State()).(disconnected := true)
    {
      disconnected := true;
    }

    /** One poll of the packet stream; `None` is the end of the stream. */
    method PollNext() returns (item: Option<Poll>)
      requires Valid()
      modifies this`sendBuffer, this`disconnected, this`recvBuffer, this`recvIndex, recvBuffer, CryptRepr(), socket
      ensures Valid() && (recvBuffer == old(recvBuffer) || fresh(recvBuffer))
      ensures var polled := Wire.PollNext(old(State()), Net(old(socket.incoming), old(socket.outgoing)));
              && State() == polled.conn && item == polled.item
              && Net(socket.incoming, socket.outgoing) == polled.net
              && socket.accepted == old(socket.accepted) + polled.accepted
    {
      assert disconnected == State().disconnected && sendBuffer == State().send;
      hide Wire.PollIncoming, WriteLoop, Valid, State, Unread, CipherState;
      if disconnected {
        return None;
      }
      var failed := PollOutgoing();
      if failed {
        MarkDisconnected();
        return Some(Ready(Err(ConnectionClosed(WriteError))));
      }
      var poll := PollRemembering();
      return Some(poll);
    }

    /** Reads, and remembers an error. */
    method PollRemembering() returns (poll: Poll)
      requires Valid() && !disconnected
      modifies this`disconnected, this`recvBuffer, this`recvIndex, recvBuffer, CryptRepr(), socket`incoming
      ensures Valid() && (recvBuffer == old(recvBuffer) || fresh(recvBuffer))
      ensures var (conn, poll', rest) := Wire.PollIncoming(old(State()), old(socket.incoming));
              && poll == poll' && socket.incoming == rest
              && State() == conn.(disconnected := poll.Ready? && poll.item.Err?)
    {
      hide Wire.PollIncoming, Valid, Unread, CipherState;
      poll := PollIncoming();
      if poll.Ready? && poll.item.Err? {
        MarkDisconnected();
      }
    }

    /** The server half of the handshake: the key goes out under the old cipher, which is then replaced. */
    method InitEncryptionServer(key: seq<byte>) returns (failure: Option<ProtocolError>)
      requires Valid()
      modifies this`sendBuffer, this`crypt, CryptRepr()
      ensures Valid()
      ensures crypt == old(crypt) || fresh(crypt)
      ensures (State(), failure) == StartServer(old(State()), key)
    {
      hide SendPacket;
      var cipher := new XorCipher(Server, key);
      InitPacketCarriesKey(key);
      failure := Send(InitPacket(key));
      if failure.None? {
        crypt := cipher;
      }
    }

    /** One poll of the client half: it waits for one packet and takes the key from it. */
    method PollInitEncryptionClient() returns (outcome: InitOutcome)
      requires Valid()
      modifies this`sendBuffer, this`disconnected, this`recvBuffer, this`recvIndex, this`crypt
      modifies recvBuffer, CryptRepr(), socket
      ensures Valid()
      ensures var polled := Wire.PollNext(old(State()), Net(old(socket.incoming), old(socket.outgoing)));
              && (State(), outcome) == AcceptInit(polled.conn, polled.item)
              && socket.accepted == old(socket.accepted) + polled.accepted
    {
      hide Wire.PollNext;
      var item := PollNext();
      match item {
        case None => return Refused(ConnectionAborted);
        case Some(Pending) => return Waiting;
        case Some(Ready(Err(e))) => return Refused(e);
        case Some(Ready(Ok(p))) =>
          var key := InitKey(p);
          if key.None? {
            return Refused(UnexpectedPacket);
          }
          crypt := new XorCipher(Client, key.value);
          return Started;
      }
    }
  }
}
