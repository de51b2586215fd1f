# Model of the ProTanki protocol stack and its session machinery

The project models two connections that exchange packets over a byte stream, and the small machines that a client
session of the server is made of, and proves what a user of them relies on.

**The wire.** A packet is an id and a list of fields from a universe of types (`Codec`). It becomes a payload, a frame
with an 8-byte header, and a part of the send buffer, under a cipher whose key every plain byte rewrites (`Cipher`).
The receiver gets the bytes in whatever pieces the network makes of them. `Connection` and `XorCipher` are classes
that work on arrays in place, as the original does; each method is proved equal to a function of the state before it
(`Wire`, `Handshakes`), and those functions carry the laws: `CodecLaws`, `CodecFormat` and `CanonicalBytes` for
values, `WireLaws` for frames, `HandshakeLaws` for the first packet, `PollLaws` for one connection over any number of
polls, `Channel` for one direction between two connections, and `Sessions` with `SessionLaws` for both directions, the
key exchange in the middle of the stream included. A session is a state machine whose actions are sends, and polls
with an arbitrary script of what the socket does; its main results speak of all states that any run reaches. `Relays`
joins two sessions by a proxy.

**The session machines.** `ResourceLoading` is the queue with one request in flight, `HandlerRegistry` the registry
that is changed while it is being walked, `TaskExecutor` the executor whose callbacks enqueue tasks, `ClientLifecycle`
the way of a client from open to closed over a real connection (`ClientTrace` says what it sends on that way), and
`Chat` the history with its subscribers. Each is a class whose methods refine a function, with its laws over whole
runs in a module of its own. `ResourceDescriptions` and `Numerals` are the resource records and paths.

Sockets, futures and components appear as values that say what they will do: lists of read and write events, tasks
that are pending for a number of polls, and lists of reactions.

## Where the code does not do what it seems to

* Sending checks neither that the length of a frame fits 32 bits nor the receiver's limit of 64 MiB
  (`WireLaws.FrameArrivesIff`, `WireLaws.OversizedEndsConnection`). The session laws therefore let its users send only
  packets that are small enough and understood by the peer, which `Sessions.Enabled` states.
* The warning about bytes that a decoder left over never appears: it compares the complement of the position
  (protocol/src/connection.rs:205). Left-over bytes of a payload are ignored (`WireLaws.LeftoverGoesUnnoticed`), and
  the guard is right exactly when there are none (`WireLaws.WarningIsRightIff`).
* A protocol error found by polling marks the connection as dead before the alert about it is queued, so the alert is
  never written (`ClientLifecycleLaws.ProtocolAlertIsLost`, with a concrete input in `FiveIsTooSmall`). The alert about
  a packet that could not be encoded can still leave; `AlertCanLeaveIff` says exactly when an alert can.
* The future returned by a flushing disconnect is ready at once, and its receiving end is dropped before it is returned
  (server/src/client.rs:263-284), so callbacks are sent but nobody waits for them. `ReadyFutureIsTrueIff` says when the
  ready future is right all the same. A disconnect without a flush drops the callbacks of an earlier one;
  `AbortLosesNothingIff` says exactly when none is lost.
* A failing handler ends a pass before the queued updates are applied. A handler that was registered in such a pass
  and removed afterwards comes back (`HandlerRegistryLaws.RemovalCanBeUndone`), unless a pass asks for its removal
  again; `RemovalLastsIff` says exactly when, over any passes.
* Writing to a socket that keeps accepting zero bytes does not end by itself (`PollLaws.EmptyWritesLeadNowhere`);
  `PollLaws.FlushEmptiesIff` says exactly which scripts empty the buffer. In the model the socket's script is finite.

## Model

| member | source | states |
|---|---|---|
| SessionLaws.FifoBothWays | protocol/src/connection.rs:118-291 | In every state any session reaches, under any interleaving of sends, partial writes, chunked deliveries and polls, what each side was given is a prefix of what the other side sent |
| SessionLaws.DrainedMeansDelivered | protocol/src/connection.rs:118-291 | In every reachable state, the handshake included: once a direction has no bytes left in either buffer or in flight and its receiver is alive, everything sent in it was given, exactly once and in order |
| SessionLaws.HandshakeBoundary | protocol/src/connection.rs:146-169 | Before the client has the key, its unread bytes, the bytes in flight and the server's buffer are one plain frame with the key followed by frames encrypted with it; afterwards each end of each lane is exactly where the packets it handled put it |
| SessionLaws.OnlyTheNetworkEndsSessions | protocol/src/connection.rs:175-291 | No poll of a session ever reports a protocol error: only a closed or failing socket ends it, and the first packet the client takes is the server's key |
| SessionLaws.EverythingCanReachClient | protocol/src/connection.rs:118-257 | From every reachable state with both sides alive, before, during or after the handshake, there is a run after which the client was given everything the server sent: no frame can be stuck in a buffer |
| SessionLaws.EverythingCanReachServer | protocol/src/connection.rs:118-257 | The same for what the client sent |
| SessionLaws.HandshakeCanComplete | protocol/src/connection.rs:146-169 | From every reachable state in which the server has started and both sides are alive, there is a run after which the client has the key, both sides still live and nothing else was sent |
| SessionLaws.ActionKeepsInvariant | protocol/src/connection.rs:118-291 | Every start, send and poll of either side keeps the session invariant, through the switch of the ciphers |
| SessionLaws.RunKeepsInvariant | protocol/src/connection.rs:118-291 | The invariant over runs of any length |
| SessionLaws.NextPacketArrives | protocol/src/connection.rs:218-242 | With the sender's buffer empty, one poll that is handed the bytes in flight returns the oldest undelivered packet |
| SessionLaws.ClientCatchesUp | protocol/src/connection.rs:218-242 | A client whose server has flushed can be polled until nothing is undelivered |
| SessionLaws.ServerCatchesUp | protocol/src/connection.rs:218-242 | A server whose client has flushed can be polled until nothing is undelivered |
| Sessions.GreetedPoll | protocol/src/connection.rs:154-168 | However the bytes arrive, and whatever is already behind it in the buffer, the first packet the waiting client gets is the key, and the bytes that stay are frames under that key |
| Channel.PollKeepsFlows | protocol/src/connection.rs:175-291 | One poll with any socket behaviour returns the oldest undelivered packet, nothing, or a closed connection; what is left of the stream is the frames of the packets left |
| Channel.FlowSend | protocol/src/connection.rs:118-138 | Sending appends one packet to the undelivered ones and its frame to the stream |
| Channel.FlowDrained | protocol/src/connection.rs:118-257 | No bytes anywhere means no packet is undelivered |
| Channel.FlowProgress | protocol/src/connection.rs:175-216 | When every byte has arrived a parse gives the next packet |
| Relays.RelayIsFifo | applications/proxy-server/src/main.rs:45-89 | Two sessions joined by the proxy: in every state that any interleaving of both networks, both owners and the proxy reaches, the client was given a prefix of what the server sent and the server a prefix of what the client sent, packets the proxy does not know included |
| Relays.DrainedRelayDelivered | applications/proxy-server/src/main.rs:60-89 | Once both sessions have drained in a direction, everything sent in it has come through the proxy, once and in order |
| Relays.MoveKeepsRelay | applications/proxy-server/src/main.rs:45-89 | Every move of the server, the client, the proxy or the networks keeps the joint invariant: both session invariants, and the second session carries exactly what the proxy was given by the first |
| PollLaws.GivenCanBeForwarded | applications/proxy-server/src/main.rs:71-86 | Every packet a poll returns encodes and is small enough, so sending it on never ends the proxy |
| Relays.SeenIsSentAlike | protocol/src/packets/unknown.rs:67-75 | A packet and the raw payload a proxy takes it for are the same bytes on the wire, under every cipher state |
| WireLaws.FrameArrivesIff | protocol/src/connection.rs:118-216 | A frame put on the wire is parsed back to its packet, with exactly its length and the sender's cipher state, if and only if it is at most 64 MiB long and the receiver understands the packet; sending checks neither |
| WireLaws.OversizedEndsConnection | protocol/src/connection.rs:126-128 | A frame above 64 MiB that still fits the 32-bit length is sent without complaint and refused by the receiver with its true length |
| WireLaws.SendFailsIff | protocol/src/connection.rs:118-124 | Sending fails exactly if an enumeration of the packet was never set, with that reason, and then changes nothing |
| WireLaws.CutFrameIsRefused | protocol/src/connection.rs:198-203 | A frame whose payload ends anywhere before its last byte is refused as ending too early |
| WireLaws.HeaderOfFront | protocol/src/connection.rs:119-128 | The first four bytes of a frame are its total length and the next four the packet id, most significant first |
| WireLaws.FullPayloadIsTooLarge | protocol/src/connection.rs:184-185 | A concrete case: a packet with 64 MiB of payload |
| WireLaws.FrontOfFrame | protocol/src/connection.rs:175-216 | Of a stream that starts with a good frame, any front that is shorter than the frame asks for more, and any other gives the packet |
| WireLaws.FrameIsDecoded | protocol/src/connection.rs:118-216 | A frame within the limit reaches the registry with the sender's id and payload, whatever the registry makes of it |
| WireLaws.ParseIsLocal | protocol/src/connection.rs:175-216 | Bytes behind a frame change neither its packet nor its error |
| WireLaws.ProxyIsTransparent | applications/proxy-server/src/main.rs:71-86 | A proxy that passes unknown packets on puts on its other wire, under any cipher, exactly the frame the sender would have put there; one that does not refuses the packet by its id |
| WireLaws.LeftoverGoesUnnoticed | protocol/src/connection.rs:198-207 | A frame with any bytes behind its fields gives the packet alone, takes all its bytes from the buffer, and the guard of the warning does not hold |
| WireLaws.WarningIsRightIff | protocol/src/connection.rs:205-205 | For every length below 2^63 the guard, which complements the position, never holds, so it answers rightly if and only if nothing was left over |
| WireLaws.ParsedCanBeForwarded | applications/proxy-server/src/main.rs:71-86 | Every packet that was parsed can be framed again for a peer with the same registry, and the new frame is never longer |
| WireLaws.ReadLoopParsesOnce | protocol/src/connection.rs:218-242 | Reading in chunks and parsing after each of them is appending what was read and parsing once |
| WireLaws.ParseStreamContinues | protocol/src/connection.rs:175-242 | A byte stream can be parsed piece by piece, from the lane and the rest the previous piece left |
| PollLaws.EveryHistoryIsExplained | protocol/src/connection.rs:218-291 | Over any number of polls with any sockets, the packets delivered and the error reported are those of one parse of all bytes received |
| PollLaws.ChunkingDoesNotMatter | protocol/src/connection.rs:218-242 | Two receivers that took the same bytes in different chunks, and have no whole frame left, delivered the same packets and hold the same rest and the same cipher state |
| PollLaws.ErrorsAreInTheStream | protocol/src/connection.rs:277-291 | A protocol error depends on the received bytes alone, all packets before it were delivered, and no later poll reads, decrypts or delivers anything |
| PollLaws.PollIsExact | protocol/src/connection.rs:259-291 | For every script of the socket, what one poll of a live connection returns: a failed write exactly if the socket fails before it took the buffer, else the first packet or error in the bytes it can get, else what stopped them: closed, failed or pending |
| PollLaws.ReadLoopIsExact | protocol/src/connection.rs:223-241 | The same for the read loop |
| PollLaws.FlushFailsIff | protocol/src/connection.rs:244-257 | The flush fails exactly if the socket fails before it took the whole buffer |
| PollLaws.SpaceIsOffered | protocol/src/connection.rs:190-230 | When a parse asks for more, the free end of the buffer that the socket is offered is not empty |
| PollLaws.ZeroReadMeansClosed | protocol/src/connection.rs:230-234 | So the loop reports a disconnect only if the peer closed |
| PollLaws.HonestSocket | protocol/src/connection.rs:218-242 | A socket that only delivers bytes never ends the connection, and is read empty before a poll is pending |
| PollLaws.PollKeepsBounds | protocol/src/connection.rs:218-242 | The receive index stays inside the receive buffer over every poll, and every reported disconnect was a real one |
| PollLaws.DeliveryIsProgress | protocol/src/connection.rs:213-215 | Every delivered packet uses up bytes, so delivering cannot go on for ever |
| PollLaws.StepConserves | protocol/src/connection.rs:118-138 | Bytes the socket took followed by bytes still buffered are the frames of all packets sent successfully; a failed encode changes neither buffer nor cipher |
| PollLaws.SendingConserves | protocol/src/connection.rs:118-257 | The same over any run of sends and polls |
| PollLaws.PollSplitsSend | protocol/src/connection.rs:244-257 | A poll cuts the send buffer into what the socket took and what stays |
| PollLaws.FlushEmptiesIff | protocol/src/connection.rs:244-257 | For every socket script the flush writes the smaller of the buffer and what the socket takes before it stops, so it empties the buffer if and only if that is enough |
| PollLaws.EmptyWritesLeadNowhere | protocol/src/connection.rs:246-251 | Any number of writes of no bytes leaves the loop exactly where it was: a socket that keeps taking nothing keeps it going |
| PollLaws.FlushTerminates | protocol/src/connection.rs:244-257 | While the socket takes at least one byte a time, the flush empties the buffer in at most one write per byte |
| Handshakes.InitPacketCarriesKey | protocol/src/connection.rs:150-166 | The key the client takes out of the packet is the key the server put in |
| Handshakes.InitPacketIsDeliverable | protocol/src/connection.rs:146-169 | The key packet can be encoded, framed and decoded by every client that has it registered |
| HandshakeLaws.HandshakeStartsIff | protocol/src/connection.rs:154-168 | One poll of a waiting client starts exactly if it is given a packet of the key packet's kind, with the key inside it; any other packet is refused as unexpected, an error as itself, the end of the stream as aborted, and the connection stays as polled |
| HandshakeLaws.OtherFirstPacketRefuses | protocol/src/connection.rs:161-164 | In bytes: a plain client that is handed the frame of any other deliverable packet first is refused in that poll and keeps the plain cipher |
| HandshakeLaws.KeyPacketHasKey | protocol/src/connection.rs:161-166 | A packet has a key exactly if it is of that kind, and is then the one a server would send for it |
| HandshakeLaws.KeyOnTheWire | protocol/src/connection.rs:150-150 | The payload of the key packet is the length of the key in four bytes and the key itself |
| Connections.Connection.constructor | protocol/src/connection.rs:84-112 | A new connection: plain cipher, empty buffers |
| Connections.Connection.BuildFrame | protocol/src/connection.rs:119-129 | A header with the final length and the id, patched in after the payload was written, then the payload; or the encoder's error |
| Connections.Connection.EncryptFrame | protocol/src/connection.rs:131-133 | The payload is encrypted in place and the header stays readable |
| Connections.Connection.Send | protocol/src/connection.rs:118-138 | The whole new state is that of the specification: one frame more and the encrypting key moved, or nothing changed |
| Connections.Connection.DecryptPayload | protocol/src/connection.rs:198-200 | Only the payload of the first frame is decrypted, where it lies; the bytes around it stay |
| Connections.Connection.ShiftOut | protocol/src/connection.rs:213-214 | The unread bytes lose exactly the first frame |
| Connections.Connection.Resize | protocol/src/connection.rs:190-193 | A longer buffer with the same unread bytes |
| Connections.Connection.ParseComplete | protocol/src/connection.rs:198-216 | A complete frame: its packet and the rest of the bytes, or its error with the decrypted frame left in place |
| Connections.Connection.TryParse | protocol/src/connection.rs:175-216 | The buffer that is decrypted in place, grown and shifted refines the parser over the unread bytes |
| Connections.Connection.ReadMore | protocol/src/connection.rs:230-240 | One read appends what the socket gave to the unread bytes |
| Connections.Connection.ReadTurn | protocol/src/connection.rs:223-241 | One turn ends the loop with the specified result, or leaves what the rest of the loop yields unchanged and uses up a socket event or byte |
| Connections.Connection.PollIncoming | protocol/src/connection.rs:218-242 | The read loop refines its specification, and ends |
| Connections.Connection.WriteOut | protocol/src/connection.rs:246-255 | The bytes the socket took are the front of the send buffer, which keeps the rest |
| Connections.Connection.PollOutgoing | protocol/src/connection.rs:244-257 | The same, with nothing else of the connection changed |
| Connections.Connection.MarkDisconnected | protocol/src/connection.rs:286-286 | The mark of a dead connection, which changes nothing else |
| Connections.Connection.PollRemembering | protocol/src/connection.rs:259-289 | Reading, with every error remembered |
| Connections.Connection.PollNext | protocol/src/connection.rs:277-291 | One poll refines its specification: result, whole new state, and both directions of the socket |
| Connections.Connection.InitEncryptionServer | protocol/src/connection.rs:146-153 | The key leaves under the old cipher, which is replaced only if sending it succeeded |
| Connections.Connection.PollInitEncryptionClient | protocol/src/connection.rs:154-168 | The first packet must be the key; any other packet, an error or the end of the stream refuses the handshake |
| Cipher.DecryptInvertsEncrypt | protocol/src/crypto/xor.rs:58-78 | Decrypting an encrypted text from the same key gives the text back |
| Cipher.EncryptInvertsDecrypt | protocol/src/crypto/xor.rs:58-78 | Encryption is onto as well: every received text is the encryption of what it decrypts to |
| Cipher.LaneRun | protocol/src/crypto/xor.rs:58-78 | Over any list of messages, one side's decryption recovers all of them and ends in the key the other side's encryption ended in |
| Cipher.LaneStep | protocol/src/crypto/xor.rs:58-78 | The same for one message, for the plain and the XOR cipher |
| Cipher.EncryptSplits | protocol/src/crypto/xor.rs:58-67 | Encrypting a buffer in two calls is encrypting it in one, for the bytes and for the key |
| Cipher.DecryptSplits | protocol/src/crypto/xor.rs:69-78 | The same for decryption |
| Cipher.KeyHoldsLastWritten | protocol/src/crypto/xor.rs:58-78 | The self-modifying key in closed form: the offset is the xor of the low bits of all bytes passed, each cell holds the byte last written to it |
| Cipher.KeyStream | protocol/src/crypto/xor.rs:58-67 | Byte n of the cipher text is byte n of the plain text xor the plain byte last written to its cell |
| Cipher.OppositeModesMirror | protocol/src/crypto/xor.rs:24-50 | From one key, each mode encrypts with what the other decrypts with, and the two directions differ |
| Cipher.StartKeysDiffer | protocol/src/crypto/xor.rs:24-50 | Whatever the key, the eight start cells of a direction are pairwise different, and the two directions differ in every cell |
| Cipher.FoldAppends | protocol/src/crypto/xor.rs:25-25 | The seed of a key is the xor of the seeds of its parts |
| Cipher.FoldDigits | protocol/src/crypto/xor.rs:25-25 | Every binary digit of the seed is set exactly if an odd number of the key bytes has it |
| Cipher.NewXorDigits | protocol/src/crypto/xor.rs:24-50 | The keys of a new cipher digit by digit, for both modes: parity of the key bytes, flipped by the cell number shifted by three, and, only from client to server, by 87; both offsets are zero |
| Cipher.LowIsMask | protocol/src/crypto/xor.rs:58-78 | Masking with 7 keeps exactly the three low bits |
| Bytes.XorBitsIsDigitwise | protocol/src/crypto/xor.rs:58-78 | The recursive exclusive or is the bitwise one, digit by digit |
| XorCiphers.XorCipher.constructor | protocol/src/crypto/xor.rs:24-50 | The arrays filled by the loop are the two start keys of the mode |
| XorCiphers.FoldKey | protocol/src/crypto/xor.rs:25-25 | The loop over the key bytes computes their xor |
| XorCiphers.XorCipher.EncryptByte | protocol/src/crypto/xor.rs:58-67 | One byte: the cell hides it, then holds it, and the offset moves by its low bits; the other key is untouched |
| XorCiphers.XorCipher.DecryptByte | protocol/src/crypto/xor.rs:69-78 | The same for decryption, driven by the plain byte recovered |
| XorCiphers.XorCipher.Encrypt | protocol/src/crypto/xor.rs:58-67 | The in-place loop refines encryption, leaves the bytes around its range alone and keeps the decrypting key |
| XorCiphers.XorCipher.Decrypt | protocol/src/crypto/xor.rs:69-78 | The same for decryption |
| CodecLaws.RoundTripIff | protocol/src/codec/basics.rs:9-148 | For every type and encodable value, decoding the encoding followed by any bytes gives the value and leaves exactly those bytes, if and only if all its lengths are below 2^32 |
| CodecLaws.RoundTrip | protocol/src/codec/basics.rs:9-148 | The direction that holds by induction over the type universe, which contains primitives, strings, vectors, options, enumerations and nested structs |
| CodecLaws.FieldsRoundTrip | protocol/src/codec/structs.rs:11-30 | The same for the field list of a struct |
| CodecLaws.FieldsRoundTripIff | protocol/src/codec/structs.rs:11-30 | The exact condition for field lists |
| CodecLaws.ElementsRoundTrip | protocol/src/codec/basics.rs:99-120 | The same for the elements of a vector |
| CodecLaws.StringRoundTrip | protocol/src/codec/basics.rs:62-97 | The same for strings, with the flag that stands for the empty one |
| CodecLaws.EncodeOkIff | protocol/src/codec/enums.rs:21-30 | Encoding fails exactly when some enumeration inside the value is Unknown |
| CodecLaws.PrefixFree | protocol/src/codec/basics.rs:9-148 | If the encoding of one value starts with that of another of the same type, the values are equal |
| CodecLaws.DecodedReencodes | protocol/src/codec/basics.rs:9-148 | Whatever decodes has the type, contains no Unknown, fits its lengths, consumed a front of the input, and encodes to no more bytes than it consumed |
| CodecLaws.TextReencodes | protocol/src/codec/basics.rs:75-97 | The same for strings: a text that is not empty consumed exactly what it encodes to, and the empty one consumed one byte or, in its long form, five |
| CodecLaws.FieldsReencode | protocol/src/codec/structs.rs:24-27 | The same for field lists |
| CodecLaws.ElementsReencode | protocol/src/codec/basics.rs:109-119 | The same for elements |
| CanonicalBytes.ReencodeRestoresIff | protocol/src/codec/basics.rs:9-148 | Re-encoding what was decoded gives back exactly the bytes that were read if and only if they held no flag above 1 and no empty string in its long form, at any depth |
| CanonicalBytes.FieldsRestoreIff | protocol/src/codec/structs.rs:19-27 | The same for field lists |
| CodecLaws.DecodeIsLocal | protocol/src/codec/basics.rs:9-148 | Bytes behind a value change neither the value nor what is left over, for every type |
| CodecFormat.CutShortIsEof | protocol/src/codec/basics.rs:9-148 | An encoding cut anywhere before its end is reported as ending too early, for every type and value |
| CodecFormat.NoTextIsRefused | protocol/src/codec/basics.rs:75-96 | Bytes that are no text are refused as such, whatever follows |
| CodecFormat.NoCodeIsRefused | protocol/src/codec/enums.rs:31-42 | A word that is no code is refused, and reported as the number congruent to it modulo 2^64 |
| CodecFormat.UnknownIsRefused | protocol/src/codec/enums.rs:21-30 | A value with an enumeration that was never set fails to encode with that error, at any depth |
| CodecFormat.BoolFormat | protocol/src/codec/basics.rs:9-13 | A flag is one byte, 1 for true |
| CodecFormat.TextFormat | protocol/src/codec/basics.rs:62-73 | Where the bytes are: a single 1 for the empty text, else a 0, the length in four bytes, and the text |
| CodecFormat.OptionFormat | protocol/src/codec/basics.rs:122-132 | A single 1 for nothing, else a 0 and the value |
| CodecFormat.VecFormat | protocol/src/codec/basics.rs:99-107 | The length in four bytes, modulo 2^32, and then the elements |
| CodecFormat.ElementsFormat | protocol/src/codec/basics.rs:103-105 | The elements one behind the other, first ones first |
| CodecFormat.FieldsFormat | protocol/src/codec/structs.rs:19-22 | The fields one behind the other |
| CodecFormat.IntFormat | protocol/src/codec/primitives.rs:6-34 | Exactly the width, congruent to the integer modulo 256 to the width, most significant byte first |
| CodecFormat.FloatFormat | protocol/src/codec/primitives.rs:6-34 | The bit pattern, most significant byte first |
| CodecFormat.EnumFormat | protocol/src/codec/enums.rs:21-30 | Four bytes, congruent to the code modulo 2^32 |
| CodecFormat.LengthFormat | protocol/src/codec/basics.rs:70-101 | A length prefix weighs the length modulo 2^32 |
| CodecFormat.EveryOtherFlagIsTrue | protocol/src/codec/basics.rs:15-18 | Every flag byte but zero reads as true: a true value, nothing, or the empty text |
| Utf8.CharactersAreScalars | protocol/src/codec/basics.rs:89-95 | The characters accepted in a text are exactly the shortest encodings of the Unicode scalar values |
| Utf8.ScalarsAreText | protocol/src/codec/basics.rs:89-95 | Any sequence of scalar values, encoded, is a text |
| Utf8.TextIsScalars | protocol/src/codec/basics.rs:89-95 | Every accepted text is the encoding of a sequence of scalar values |
| CodecLaws.ReencodeIsNormalForm | applications/proxy-server/src/main.rs:71-86 | Decoding and encoding once reaches a form that decodes to the same value |
| CodecLaws.ReadWordInverts | protocol/src/codec/primitives.rs:6-34 | A big-endian word of any width reads back and leaves what follows |
| CodecLaws.ReadBoolInverts | protocol/src/codec/basics.rs:9-19 | The same for a flag |
| CodecLaws.WordInverts | protocol/src/codec/primitives.rs:6-34 | Signed integers survive the two's complement |
| Bytes.FromBigEndianInverts | protocol/src/codec/primitives.rs:6-34 | A number that fits its width is recovered from its big-endian bytes |
| Bytes.BigEndianWeight | protocol/src/codec/primitives.rs:6-34 | The most significant byte comes first: the front of a word weighs 256 to the number of bytes behind it |
| Bytes.BigEndianInverts | protocol/src/codec/primitives.rs:6-34 | And bytes from their number |
| CodecIO.EncodeValue | protocol/src/codec/basics.rs:9-148 | The writer gets the encoding of the value appended, or a part of it and the error |
| CodecIO.EncodeEntries | protocol/src/codec/basics.rs:103-105 | The loop over the entries of a vector |
| CodecIO.EncodeStruct | protocol/src/codec/structs.rs:19-22 | The loop over the fields of a struct |
| CodecIO.DecodeValue | protocol/src/codec/basics.rs:9-148 | Decoding into any target of the type's shape gives what the bytes say, independent of what the target held |
| CodecIO.DecodeString | protocol/src/codec/basics.rs:75-97 | Flag, length, bytes and their validity as text, or the first error |
| CodecIO.DecodeVec | protocol/src/codec/basics.rs:109-119 | Resizing and decoding over old elements gives the elements in the bytes |
| CodecIO.DecodeStruct | protocol/src/codec/structs.rs:24-27 | Decoding over old fields gives the fields in the bytes |
| Packets.DecodePacketInverts | protocol/src/packets/registry.rs:56-72 | A packet arrives as it was sent if and only if the receiver understands it: its id is registered with its fields, or unregistered and passed through |
| Packets.DecodedPacketForwards | applications/proxy-server/src/main.rs:71-86 | Whatever was decoded can be encoded, is not longer, and decodes to itself |
| Packets.LeftoverIsIgnored | protocol/src/connection.rs:202-207 | A known packet decodes to the same with any bytes behind its fields |
| Packets.CutPayloadIsRefused | protocol/src/packets/registry.rs:56-72 | A known packet whose payload was cut short is refused, with the reason |
| Packets.PayloadFailsIff | protocol/src/codec/enums.rs:21-30 | A payload fails to encode exactly if an enumeration in it was never set |
| Packets.PacketRegistry.AllowUnknownPackets | protocol/src/packets/registry.rs:41-43 | Only the flag changes |
| Packets.PacketRegistry.RegisterPacket | protocol/src/packets/registry.rs:45-54 | One id more |
| Packets.PacketRegistry.Decode | protocol/src/packets/registry.rs:56-72 | The registered decoder, the raw payload, or an error with the id as a signed number |
| Packets.EncodePayload | protocol/src/packets/unknown.rs:67-75 | The payload of a typed or a raw packet, appended to the writer |
| ResourceLoadingLaws.EveryRunHasShape | server/src/client_components/resources.rs:45-155 | After any run the requests are finished ones, then at most one sent, then waiting ones; one is sent exactly if one is pending and whenever any waits; ids are 1..n, stages differ, packets left in id order; there are at most three requests |
| ResourceLoadingLaws.StepKeepsShape | server/src/client_components/resources.rs:45-155 | Each operation keeps that shape and never unfinishes a request |
| ResourceLoadingLaws.RunKeepsShape | server/src/client_components/resources.rs:45-155 | The same from any state of that shape |
| ResourceLoadingLaws.AwaitKeepsShape | server/src/client_components/resources.rs:45-99 | The same for waiting |
| ResourceLoadingLaws.AcknowledgeKeepsShape | server/src/client_components/resources.rs:129-155 | An acknowledgement counts exactly if it names the request in flight; any other changes nothing, and its error says which kind it was |
| ResourceLoadingLaws.SentAsEnqueued | server/src/client_components/resources.rs:101-125 | An operation sends at most one packet, with the id and the resources its request was enqueued with |
| ResourceLoadingLaws.SentAsWanted | server/src/client_components/resources.rs:45-125 | Over any run the requests are for the stages awaited, in the order each was first awaited successfully, and each is sent, under its number, with the resources it was awaited with then |
| ResourceLoadingLaws.AcknowledgementsFinishAll | server/src/client_components/resources.rs:129-155 | Acknowledging what is sent, in order, finishes every request: none is forgotten in the queue |
| ResourceLoadingLaws.ListenersAreToldExactlyOnce | server/src/client_components/resources.rs:45-155 | Over any run, the listeners of a stage are all waiting while its request is unfinished, and all told, once each and in order, when it is |
| ResourceLoadingLaws.RunKeepsAccounts | server/src/client_components/resources.rs:45-155 | The same from any accounted state |
| ResourceLoadingLaws.ListeningKeepsAccounts | server/src/client_components/resources.rs:53-61 | A future is ready at once exactly if the request is finished, and is stored otherwise |
| ResourceLoadingLaws.AwaitAnswersIff | server/src/client_components/resources.rs:45-62 | Waiting is answered as loaded exactly if the stage is; with an error, and nothing changed, exactly if it was never requested and its resources cannot be had; else with a new channel of that stage, which an unfinished request of the stage holds |
| ResourceLoadingLaws.FinishingKeepsAccounts | server/src/client_components/resources.rs:142-152 | Finishing one request tells all its listeners and no others |
| ResourceLoading.ClientResources.AwaitResourcesLoaded | server/src/client_components/resources.rs:45-62 | The method refines the specification, including a failed preparation that changes nothing |
| ResourceLoading.ClientResources.ListenTo | server/src/client_components/resources.rs:53-61 | The listening part |
| ResourceLoading.ClientResources.EnqueueLoadRequest | server/src/client_components/resources.rs:64-99 | The new request and the attempt to send it |
| ResourceLoading.ClientResources.TrySendNextLoadRequest | server/src/client_components/resources.rs:101-125 | The search for the first waiting request, and nothing while one is in flight |
| ResourceLoading.ClientResources.OnResourcesRegistered | server/src/client_components/resources.rs:129-155 | The acknowledgement, with its three errors and the signed id read as unsigned |
| HandlerRegistryLaws.PassDelivers | client-utils/src/handler.rs:63-87 | A pass calls handlers in ascending id order, only those present at its start, all of them exactly if none fails, and otherwise up to and including the first that fails |
| HandlerRegistryLaws.HandlerStaysIff | client-utils/src/handler.rs:74-108 | After a completed pass a handler is still there, as it was, exactly if it is not done and no handler of the map asked for its removal |
| HandlerRegistryLaws.NewHandlerStaysIff | client-utils/src/handler.rs:35-61 | A handler that is registered gets the next id and is there in the end exactly if nobody removes it later |
| HandlerRegistryLaws.PassAsksInOrder | client-utils/src/handler.rs:63-82 | What is asked for during a pass are the requests of the handlers it called, in order, and behind those of one that is done its own removal |
| HandlerRegistryLaws.AskedInPass | client-utils/src/handler.rs:63-82 | A request is made in a pass exactly if a handler it called makes it, or is done and it is its removal |
| HandlerRegistryLaws.DeferredIsImmediate | client-utils/src/handler.rs:35-61 | Any list of requests queued during a pass and committed after it ends in the same registry as performing them one by one at once |
| HandlerRegistryLaws.PassesPerform | client-utils/src/handler.rs:63-108 | Over any list of passes, whichever of them fail, a final commit leaves the registry that performing everything asked for, one by one and in order, would: nothing is lost, doubled or reordered |
| HandlerRegistryLaws.CompletedPassPerforms | client-utils/src/handler.rs:63-108 | So a completed pass acts on the handlers it started with |
| HandlerRegistryLaws.FailedPassOnlyQueues | client-utils/src/handler.rs:66-79 | A failed pass changes no handler and only adds to the queue, since it leaves before the commit |
| HandlerRegistryLaws.LateRequestsComeFirst | client-utils/src/handler.rs:63-108 | What a failed pass asked for is done by the next completed pass, before what that pass asks for, and over the whole it is as if all was performed in the order it was asked |
| HandlerRegistryLaws.CommitFollowsLastWord | client-utils/src/handler.rs:89-108 | After a commit, an id is as the last queued update about it says, or as it was |
| HandlerRegistryLaws.RemovalLastsIff | client-utils/src/handler.rs:51-87 | A removal made between passes, of any id handed out: over any passes, failed or completed, of which the last completes, the handler stays away if and only if the queue at the time of the removal did not register it or one of the passes asks for its removal |
| HandlerRegistryLaws.RemovalCanBeUndone | client-utils/src/handler.rs:63-72 | A concrete run in which a removed handler comes back |
| HandlerRegistryLaws.IdsAreNeverReused | client-utils/src/handler.rs:35-49 | Over every run that stays below the wrap of the counter the ids returned are consecutive numbers above the counter at its start, so none is returned twice, removed handlers included, and the next is neither in the map nor in the queue |
| HandlerRegistryLaws.QueuedAsReturned | client-utils/src/handler.rs:43-44 | The registrations a pass queues carry the ids that were returned for them, in order |
| HandlerRegistryLaws.PassKeepsIds | client-utils/src/handler.rs:63-108 | A pass, completed or failed, keeps ids distinct |
| HandlerRegistryLaws.RequestsKeepIds | client-utils/src/handler.rs:35-61 | A request keeps ids distinct, queued or performed |
| HandlerRegistry.PacketHandlerRegistry.RegisterHandler | client-utils/src/handler.rs:35-49 | A new id, and the handler in the map or, during a pass, in the queue |
| HandlerRegistry.PacketHandlerRegistry.RemoveHandler | client-utils/src/handler.rs:51-61 | The same for removal |
| HandlerRegistry.PacketHandlerRegistry.Call | client-utils/src/handler.rs:74-82 | The requests of one handler, made while the map is borrowed, in order, and its own removal when it is done |
| HandlerRegistry.PacketHandlerRegistry.Walk | client-utils/src/handler.rs:63-87 | The walk over the map with its early exit calls who is due and leaves the specified registry |
| HandlerRegistry.PacketHandlerRegistry.CommitPostHandleUpdates | client-utils/src/handler.rs:89-108 | The queue is applied in order and emptied |
| HandlerRegistry.AscendingAscends | client-utils/src/handler.rs:65-67 | The ids of the map in strictly ascending order, each once |
| TaskExecutorLaws.RunKeepsOrder | server/src/tasks.rs:48-90 | Over any run of enqueues and polls on distinct tasks, what is held is what was enqueued and has not completed, in enqueue order, and each callback ran at most once and never for a task that is held |
| TaskExecutorLaws.RunConserves | server/src/tasks.rs:48-90 | Over any run, every task handed in and every descendant of one has completed or is still held, and nothing completed that was not enqueued |
| TaskExecutorLaws.PollConserves | server/src/tasks.rs:69-90 | In one poll every task, and every descendant it will spawn, is accounted for: its callback ran, or it is still held |
| TaskExecutorLaws.CallbacksRunAtMostOnce | server/src/tasks.rs:17-29 | In one poll of distinct tasks each callback runs at most once, and never for a task that stays |
| TaskExecutorLaws.PollKeepsOrder | server/src/tasks.rs:69-90 | What a poll leaves is what was there and what was enqueued meanwhile, without what completed, in enqueue order |
| TaskExecutorLaws.WalkKeepsOrder | server/src/tasks.rs:73-79 | The same for one walk of the list |
| TaskExecutorLaws.WalkCompletesTheReady | server/src/tasks.rs:73-79 | One walk completes exactly the ready tasks, keeps the others one poll nearer, and enqueues what the callbacks enqueue, all in order |
| TaskExecutorLaws.EveryTaskIsPolled | server/src/tasks.rs:69-90 | Every task that is held after a poll was polled in it, those that callbacks enqueued meanwhile and their descendants included; so no ready task is left, whatever stands beside it |
| TaskExecutorLaws.ReadyWorkFinishes | server/src/tasks.rs:69-90 | In particular, if all tasks and descendants are ready, the poll completes them all |
| TaskExecutor.Tasks.Enqueue | server/src/tasks.rs:48-67 | The task goes to the main list, or to the second one during a walk |
| TaskExecutor.Tasks.PollTask | server/src/tasks.rs:17-29 | A ready task runs its callback once and is dropped; what the callback enqueues goes to the second list |
| TaskExecutor.Tasks.RetainPending | server/src/tasks.rs:73-79 | One walk keeps the pending tasks in place and order |
| TaskExecutor.Tasks.Poll | server/src/tasks.rs:69-90 | The loop refines its specification, ends, and leaves the second list empty |
| TaskExecutor.WalkShrinks | server/src/tasks.rs:72-90 | Each walk uses up one unit of work for each task it polls: why the loop ends |
| ClientLifecycleLaws.LifeMovesForward | server/src/client.rs:239-384 | Over a whole life the state never moves back along open, closing, closed; nothing is framed once it is not open; a dead connection accepts nothing |
| ClientLifecycleLaws.CallbacksFireTruthfully | server/src/client.rs:318-331 | Callbacks are numbered apart, are sent all together and once or never, only when closed, and only if the socket took every byte ever queued or the connection was lost |
| ClientLifecycleLaws.FlushCompletes | server/src/client.rs:378-380 | A closing client whose buffer a poll empties is closed by that poll, everything queued was taken and every stored callback sent |
| ClientLifecycleLaws.NextPollCloses | server/src/client.rs:337-383 | A closing client over a live connection is closed by its next poll if the socket takes the buffer then, with everything taken and every callback sent, whatever arrives and whatever its components do short of disconnecting without a flush |
| ClientLifecycleLaws.ReadyFutureIsTrueIff | server/src/client.rs:263-284 | The future of a flushing disconnect is ready at once; at that moment every queued byte was taken if and only if the send buffer is clear |
| ClientLifecycleLaws.FutureIsReadyTooSoon | server/src/client.rs:263-284 | A concrete case: a client with one unwritten byte |
| ClientLifecycleLaws.AbortLosesNothingIff | server/src/client.rs:254-261 | After a disconnect without a flush, in any later run, every stored callback was sent if and only if the client was open, or closed with its callbacks sent |
| ClientLifecycleLaws.AbortNeverFires | server/src/client.rs:254-261 | A closing client that is disconnected without a flush drops its callbacks: none is sent in any later run |
| ClientLifecycleLaws.AlertCanLeaveIff | server/src/client.rs:287-297 | The alert about a protocol error is always queued, and leaves in some later run if and only if the connection was alive when the error was handled |
| ClientLifecycleLaws.ProtocolAlertIsLost | server/src/client.rs:287-297 | An error found by polling has already killed the connection: the same poll closes the client and no byte of the alert is ever taken by the socket |
| ClientLifecycleLaws.FiveIsTooSmall | protocol/src/connection.rs:184-188 | A concrete case: eight bytes that announce a frame of five are refused, and nothing is written in any later run |
| ClientLifecycleLaws.PacketLoopFollows | server/src/client.rs:361-376 | The packet loop ends with the future ready exactly if the connection is lost, and then the client is closed |
| ClientLifecycleLaws.PollClientFollows | server/src/client.rs:337-383 | A poll keeps the accounts of bytes and callbacks and is ready only if the client is closed |
| ClientTrace.LifeSays | server/src/client.rs:239-384 | Over a whole life, what is queued are the frames of exactly the packets sent while the client was open, in the order they were sent by callers, tasks and the components of each packet received, and of its alerts, each under the lane the one before left |
| ClientTrace.EverythingSaidIsOnItsWay | server/src/client.rs:239-384 | From a new client, what the socket took and what is buffered are the bytes there at the start and those frames |
| ClientTrace.SendsAreQueuedInOrder | server/src/client.rs:239-248 | Any list of packets that encode, sent to an open client, is queued whole and in order |
| ClientTrace.SendQueues | server/src/client.rs:239-248 | Sending to an open client adds exactly the frame of the packet, under the lane of that moment, and leaves it open |
| ClientTrace.UnencodableCloses | server/src/client.rs:245-247 | A packet that cannot be encoded leaves an open client closing, with the alert queued instead |
| ClientTrace.FailureCloses | server/src/client.rs:299-303 | A component that fails leaves an open client closing, with an alert of its own queued |
| ClientTrace.ProtocolErrorCloses | server/src/client.rs:287-297 | A protocol error does the same, unless it says that the connection is closed, which closes the client at once |
| ClientTrace.SilentWhenNotOpen | server/src/client.rs:239-243 | A client that is not open queues nothing, whatever it is asked for |
| ClientTrace.DisconnectStores | server/src/client.rs:263-282 | Every flushing disconnect of a client that is not closed stores one more callback behind the others |
| ClientTrace.ReactionsPass | server/src/client.rs:239-316 | Where any reactions leave a client, open, closing or closed, and how many callbacks they store, told from what they do alone |
| ClientTrace.PollIsOverIff | server/src/client.rs:337-383 | A poll is over exactly if tasks and components left the client closed or the connection is lost |
| ClientLifecycle.Client.SendPacket | server/src/client.rs:239-248 | Nothing when not open; otherwise a frame, or the handling of the encoder's error |
| ClientLifecycle.Client.QueueFrame | server/src/client.rs:245-245 | The connection's send, with what was framed recorded |
| ClientLifecycle.Client.SendAlertPacket | server/src/client.rs:295-295 | The alert, which always encodes |
| ClientLifecycle.Client.DisconnectClient | server/src/client.rs:254-285 | The four cases of disconnecting, and the future that is ready at once in each of them |
| ClientLifecycle.Client.HandleProtocolError | server/src/client.rs:287-297 | A closed connection closes the client; any other error sends an alert and starts to close |
| ClientLifecycle.Client.HandleHandlerError | server/src/client.rs:299-303 | The alert and the start of closing |
| ClientLifecycle.Client.HandleReactions | server/src/client.rs:305-316 | All components react, one after the other, also after an error |
| ClientLifecycle.Client.DoConnectionClose | server/src/client.rs:318-331 | The loop that sends the callbacks of a closing client |
| ClientLifecycle.Client.PollPackets | server/src/client.rs:361-376 | The packet loop refines its specification, and ends |
| ClientLifecycle.Client.Poll | server/src/client.rs:337-383 | One poll refines its specification |
| ChatLaws.StreamsAreContinuous | server/src/chat.rs:39-139 | Over any run every channel carries the history at subscription, the warning, and then every message from there on without gap or repetition; it is up to date while its subscriber listens |
| ChatLaws.SubscribersListenIff | server/src/chat.rs:103-156 | Over any run a channel is listened to, and so up to date, exactly if its client has not subscribed again since and its receiver was not dropped |
| ChatLaws.HistoryIsTheLastHundred | server/src/chat.rs:48-53 | The history is the last hundred messages, or all if there were fewer |
| ChatLaws.SayingIsSound | server/src/chat.rs:39-74 | A message keeps this for every channel, live, replaced or dropped |
| ChatLaws.SubscribingIsSound | server/src/chat.rs:129-139 | So does a subscription, with no seam between history and live messages |
| ChatLaws.DroppingIsSound | server/src/chat.rs:151-156 | So does a receiver that goes away |
| Chat.ServerChat.DispatchServerEvent | server/src/chat.rs:103-107 | Every open channel gets the event and subscribers whose receiver is gone are removed, in whatever order the map is walked |
| Chat.ServerChat.RegisterChatMessage | server/src/chat.rs:48-53 | Dispatch, append, and the loop that trims the history |
| Chat.ServerChat.RegisterSystemMessage | server/src/chat.rs:39-53 | The message as a system message |
| Chat.ServerChat.RegisterMessage | server/src/chat.rs:55-74 | The message as a player's |
| Chat.ServerChat.SendMessageHistory | server/src/chat.rs:76-101 | History and warning go to one subscriber only |
| Chat.ServerChat.SubscribeClient | server/src/chat.rs:129-139 | A new channel replaces the client's old one and is greeted |
| Chat.ServerChat.DropReceiver | server/src/chat.rs:151-156 | Only the receiver closes; the subscription stays until the next message |
| ResourceDescriptions.WriteThenRead | server/src/resources.rs:116-205 | Reading a written description gives the resource back, for every 64-bit id and version and every kind |
| ResourceDescriptions.ReadThenWriteIff | server/src/resources.rs:116-205 | Writing a description that was read gives it back if and only if its high halves are canonical decimals below 2^32 and only the fields of its kind are present |
| ResourceDescriptions.NumberRoundTrip | server/src/resources.rs:144-160 | The split into high text and low number recovers every 64-bit number |
| ResourceDescriptions.AsJsonResource | server/src/resources.rs:152-205 | The record filled in field by field, by kind, reads back as the resource and is canonical |
| ResourceDescriptions.PathsAreUnique | protocol/src/resources.rs:16-28 | Two resources with the same path have the same id and version |
| ResourceDescriptions.PathSpells | protocol/src/resources.rs:16-28 | Cut at its slashes, the path spells four decimal numbers of 32, 16, 8 and 8 bits that weigh up to the id, most significant first, and the version in octal |
| ResourceDescriptions.ExamplePaths | protocol/src/resources.rs:35-45 | The two paths that the repository gives as examples |
| ResourceDescriptions.ReadTakesEachField | server/src/resources.rs:116-150 | Reading takes the kind from its protocol number, each detail from the field of its name, the width from the one called weight, and the words of id and version from their places |
| ResourceDescriptions.ReadFailsIff | server/src/resources.rs:116-150 | Which of the three errors, and exactly when |
| Numerals.ParsePrinted | server/src/resources.rs:144-160 | A printed 64-bit number parses to itself |
| Numerals.ParsePrintedIff | server/src/resources.rs:144-150 | A printed number is read back, with or without a plus sign, exactly if it fits 64 bits |
| Numerals.ParseNeedsDigits | server/src/resources.rs:144-150 | Nothing else is read as a number: behind an optional sign there must be digits, and only digits |
| Numerals.PrintIsInjective | protocol/src/resources.rs:16-28 | Decimal and octal text determine the number |

## Left out

- The `Length` codec (protocol/src/codec/basics.rs:21-60): nothing uses it, and its decoder does not invert its encoder from 128 upward.
- Generated packets (protocol/build.rs): a packet is its id and the list of its field types, and the list of packets a program registers is a parameter.
- Real sockets, wakers, timers, logging, `select!` and the async runtime: replaced by scripts of events; wake-ups are not modelled, so no law says that a task is polled again.
- Random key generation: keys are arbitrary byte sequences; the session laws use keys of the length the server generates.
- Floating-point arithmetic: `f32` and `f64` are their bit patterns, written and read as words.
- CodecIO.DecodeValue: says nothing of the reader's position or the target's contents after a failed decode, since every caller gives up the frame then.
- CodecIO.EncodeValue: after a failed encode the bytes written so far are some extension of what was there, since the caller drops the buffer.
- Connections.Connection.Resize: makes a new array; that the vector's spare capacity may avoid the copy is not modelled, nor is running out of memory.
- ClientLifecycle.Client.Poll: the client holds its connection as a value, so the aliasing of the connection's buffers is covered only by the module Connections.
- ClientLifecycle.Client.HandleReactions: components are lists of sends, disconnects and failures, without a state of their own, and the task executor's part of a poll is one of them.
- TaskExecutor.Tasks.Poll: tasks spawn finite forests and are pending a finite number of polls, because the original loops for ever otherwise.
- HandlerRegistryLaws.IdsAreNeverReused: stated for runs that stay below the 32-bit counter's wrap; beyond it ids do repeat, and a build that traps overflow stops there.
- Callbacks, listeners, handlers and channels are numbered names for the closures and one-shot channels of the original; a listener or callback whose receiver is gone is still counted as sent.
- Lock poisoning in the chat and resource components, which would turn their operations into errors.
- Preparing resources for a stage, which for now always yields an empty list (server/src/resources.rs:79): the serialised text, or the failure to make it, is an input.
- The JSON text of resource descriptions: the record behind it is modelled, not its syntax.
- Relays: the proxy's loop takes its two connections in any order; which of them it picks, and what happens after one of them ended, is left to the run.
- The bots, captcha, accounts and their SQL storage, rank tables, settings and the dummy battle list: single-branch logic or outside services.
