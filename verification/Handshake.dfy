/** The encryption handshake of both sides, as functions of a connection. */
module Handshakes {
  import opened Wrappers
  import opened Bytes
  import opened Codec
  import opened CodecLaws
  import opened Cipher
  import opened Packets
  import opened Wire
  import opened WireLaws

  const INIT_ID: nat := 2001736388
  const INIT_TYPES := [TVec(TInt(1, false))]
  const KEY_LENGTH: nat := 4

  function KeyValues(key: seq<byte>): seq<Value> {
    seq(|key|, i requires 0 <= i < |key| => VInt(key[i] as int))
  }

  /** The packet that tells the client the key. */
  function InitPacket(key: seq<byte>): Packet {
    TypedPacket(INIT_ID, INIT_TYPES, [VVec(KeyValues(key))])
  }

  /** The key in a packet, if it is the packet the client waits for. */
  function InitKey(p: Packet): Option<seq<byte>> {
    if p.TypedPacket? && p.id == INIT_ID && p.fieldTypes == INIT_TYPES && HaveTypes(p.fieldTypes, p.fields) then
      assert HasType(TVec(TInt(1, false)), p.fields[0]);
      Some(KeyBytes(p.fields[0].elements))
    else None
  }

  function KeyBytes(values: seq<Value>): seq<byte>
    requires forall v :: v in values ==> HasType(TInt(1, false), v)
  {
    seq(|values|, i requires 0 <= i < |values| => ByteNumber(values[i]))
  }

  function ByteNumber(v: Value): byte
    requires HasType(TInt(1, false), v)
  {
    assert Pow256(1) == 256;
    v.number as byte
  }

  lemma InitPacketCarriesKey(key: seq<byte>)
    ensures IsPacket(InitPacket(key)) && InitKey(InitPacket(key)) == Some(key)
  {
    assert Pow256(1) == 256;
    assert HasType(INIT_TYPES[0], VVec(KeyValues(key)));
    assert INIT_TYPES[1..] == [];
    assert KeyBytes(KeyValues(key)) == key;
  }

  lemma {:induction false} PlainIntegersAreSimple(values: seq<Value>)
    requires forall v :: v in values ==> v.VInt?
    ensures AllKnown(values) && AllFit(values)
  {
    if values != [] {
      PlainIntegersAreSimple(values[1..]);
    }
  }

  lemma {:induction false} IntegersEncodeToOneByteEach(values: seq<Value>)
    requires forall v :: v in values ==> HasType(TInt(1, false), v)
    ensures EncodeElements(TInt(1, false), values).Ok? && |EncodeElements(TInt(1, false), values).value| == |values|
  {
    if values != [] {
      IntegersEncodeToOneByteEach(values[1..]);
    }
  }

  /** The handshake packet always reaches a client that knows it. */
  lemma InitPacketIsDeliverable(registry: Registry, key: seq<byte>)
    requires |key| == KEY_LENGTH
    requires INIT_ID in registry.packets && registry.packets[INIT_ID] == INIT_TYPES
    ensures Deliverable(registry, InitPacket(key))
  {
    InitPacketCarriesKey(key);
    var values := KeyValues(key);
    PlainIntegersAreSimple(values);
    var fields := [VVec(values)];
    assert fields[1..] == [];
    assert NoUnknown(fields[0]) && Fits(fields[0]);
    assert AllKnown(fields) && AllFit(fields);
    assert Pow256(1) == 256;
    IntegersEncodeToOneByteEach(values);
    EncodeFieldsOkIff(INIT_TYPES, [VVec(values)]);
    FieldsOfOne(INIT_TYPES[0], VVec(values));
  }

  /** The server queues the key in the clear and encrypts everything after it. */
  function StartServer(conn: Conn, key: seq<byte>): (Conn, Option<ProtocolError>) {
    InitPacketCarriesKey(key);
    var (conn', failure) := SendPacket(conn, InitPacket(key));
    if failure.Some? then (conn', failure) else (conn'.(cipher := NewXor(Server, key)), None)
  }

  datatype InitOutcome = Waiting | Started | Refused(error: ProtocolError)

  /** The client takes the first packet of the stream, whatever it is. */
  function AcceptInit(conn: Conn, item: Option<Poll>): (Conn, InitOutcome) {
    match item
    case None => (conn, Refused(ConnectionAborted))
    case Some(Pending) => (conn, Waiting)
    case Some(Ready(Err(e))) => (conn, Refused(e))
    case Some(Ready(Ok(p))) =>
      match InitKey(p)
      case None => (conn, Refused(UnexpectedPacket))
      case Some(key) => (conn.(cipher := NewXor(Client, key)), Started)
  }
}
