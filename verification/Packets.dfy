/** Packets, and the registry that decides how the payload of a packet id is decoded. */
module Packets {
  import opened Wrappers
  import opened Bytes
  import opened Codec
  import opened CodecLaws
  import opened CodecFormat
  import opened CodecIO

  datatype Packet =
    | TypedPacket(id: nat, fieldTypes: seq<Type>, fields: seq<Value>)
    | UnknownPacket(id: nat, payload: seq<byte>)

  datatype ClosedReason = Disconnected | ReadError | WriteError

  datatype ProtocolError =
    | CodecFailure(cause: CodecError)
    | PacketUnknownId(reportedId: int)
    | PacketTooLarge(length: nat)
    | PacketTooSmall(length: nat)
    | ConnectionClosed(reason: ClosedReason)
    | ConnectionAborted
    | UnexpectedPacket

  /** Packets that exist in the program: 32-bit ids, and fields of the types their struct declares. */
  predicate IsPacket(p: Packet) {
    p.id < U32_LIMIT && (p.TypedPacket? ==> HaveTypes(p.fieldTypes, p.fields))
  }

  function Payload(p: Packet): Encoded
    requires IsPacket(p)
  {
    match p
    case TypedPacket(_, types, fields) => EncodeFields(types, fields)
    case UnknownPacket(_, payload) => Ok(payload)
  }

  /** The packet kinds one side understands, and whether it passes the others on undecoded. */
  datatype Registry = Registry(packets: map<nat, seq<Type>>, decodeAsUnknown: bool)

  function AsI32(id: nat): (i: int)
    ensures id < U32_LIMIT ==> IsI32(i) && (id - i) % U32_LIMIT == 0
  {
    if id < 0x8000_0000 then id else id - U32_LIMIT
  }

  function DecodePacket(registry: Registry, id: nat, payload: seq<byte>): Result<Packet, ProtocolError> {
    if id in registry.packets then
      match DecodeFields(registry.packets[id], payload)
      case Ok((fields, _)) => Ok(TypedPacket(id, registry.packets[id], fields))
      case Err(e) => Err(CodecFailure(e))
    else if registry.decodeAsUnknown then Ok(UnknownPacket(id, payload))
    else Err(PacketUnknownId(AsI32(id)))
  }

  /**
    What a sender can check before it sends: all enumerations are set, and the receiver either knows the id under
    the same field list (and the lengths inside fit), or passes an unknown packet on.
   */
  predicate Understood(registry: Registry, p: Packet) {
    match p
    case TypedPacket(id, types, fields) => id in registry.packets && registry.packets[id] == types && AllFit(fields)
    case UnknownPacket(id, payload) => id !in registry.packets && registry.decodeAsUnknown
  }

  /** A packet arrives as it was sent exactly when the receiver understands it. */
  lemma DecodePacketInverts(registry: Registry, p: Packet)
    requires IsPacket(p) && Payload(p).Ok?
    ensures DecodePacket(registry, p.id, Payload(p).value) == Ok(p) <==> Understood(registry, p)
  {
    if p.TypedPacket? {
      var bytes := Payload(p).value;
      EncodeFieldsOkIff(p.fieldTypes, p.fields);
      FieldsRoundTripIff(p.fieldTypes, p.fields, []);
      assert bytes + [] == bytes;
      if AllFit(p.fields) {
        FieldsRoundTrip(p.fieldTypes, p.fields, []);
      } else if p.id in registry.packets && DecodeFields(registry.packets[p.id], bytes).Ok? {
        FieldsReencode(registry.packets[p.id], bytes);
      }
    }
  }

  /**
    Every decoded packet can be sent again, and the receiver's registry understands it: what the proxy relies on.
    The payload does not grow.
   */
  lemma DecodedPacketForwards(registry: Registry, id: nat, payload: seq<byte>)
    requires id < U32_LIMIT && DecodePacket(registry, id, payload).Ok?
    ensures var p := DecodePacket(registry, id, payload).value;
            && IsPacket(p) && p.id == id && Payload(p).Ok? && |Payload(p).value| <= |payload|
            && Understood(registry, p) && DecodePacket(registry, id, Payload(p).value) == Ok(p)
  {
    if id in registry.packets {
      FieldsReencode(registry.packets[id], payload);
    }
    DecodePacketInverts(registry, DecodePacket(registry, id, payload).value);
  }

  /** Bytes behind the fields of a known packet are dropped without a trace. */
  lemma LeftoverIsIgnored(registry: Registry, id: nat, payload: seq<byte>, junk: seq<byte>)
    requires id in registry.packets && DecodePacket(registry, id, payload).Ok?
    ensures DecodePacket(registry, id, payload + junk) == DecodePacket(registry, id, payload)
  {
    FieldsAreLocal(registry.packets[id], payload, junk);
  }

  /** A payload that ends anywhere before its last byte is refused, with the reason. */
  lemma CutPayloadIsRefused(registry: Registry, p: Packet, k: nat)
    requires IsPacket(p) && p.TypedPacket? && Understood(registry, p) && Payload(p).Ok? && k < |Payload(p).value|
    ensures DecodePacket(registry, p.id, Payload(p).value[..k]) == Err(CodecFailure(UnexpectedEof))
  {
    EncodeFieldsOkIff(p.fieldTypes, p.fields);
    FieldsCutShort(p.fieldTypes, p.fields, k);
  }

  /** A packet fails to encode exactly if one of its enumerations was never set, whatever the packet. */
  lemma PayloadFailsIff(p: Packet)
    requires IsPacket(p)
    ensures Payload(p).Err? <==> p.TypedPacket? && !AllKnown(p.fields)
    ensures Payload(p).Err? ==> Payload(p).error == EnumUnknown
  {
    if p.TypedPacket? {
      EncodeFieldsOkIff(p.fieldTypes, p.fields);
      if !AllKnown(p.fields) {
        UnknownFieldIsRefused(p.fieldTypes, p.fields);
      }
    }
  }

  class PacketRegistry {
    var packets: map<nat, seq<Type>>
    var decodeAsUnknown: bool

    ghost function State(): Registry
      reads this
    {
      Registry(packets, decodeAsUnknown)
    }

    constructor ()
      ensures State() == Registry(map[], false)
    {
      packets := map[];
      decodeAsUnknown := false;
    }

    method AllowUnknownPackets()
      modifies this
      ensures State() == old(State()).(decodeAsUnknown := true)
    {
      decodeAsUnknown := true;
    }

    /** Registering an id twice is a programming error that aborts the program. */
    method RegisterPacket(id: nat, fieldTypes: seq<Type>)
      requires id !in packets
      modifies this
      ensures State() == old(State()).(packets := old(packets)[id := fieldTypes])
    {
      packets := packets[id := fieldTypes];
    }

    method Decode(reader: Reader, id: nat) returns (result: Result<Packet, ProtocolError>)
      requires reader.Valid()
      modifies reader
      ensures reader.Valid()
      ensures result == DecodePacket(State(), id, old(reader.Rest()))
    {
      if id in packets {
        var types := packets[id];
        var fields := DecodeStruct(types, Defaults(types), reader);
        return if fields.Ok? then Ok(TypedPacket(id, types, fields.value)) else Err(CodecFailure(fields.error));
      }
      if !decodeAsUnknown {
        return Err(PacketUnknownId(AsI32(id)));
      }
      var payload := reader.ToEnd();
      return Ok(UnknownPacket(id, payload));
    }
  }

  method EncodePayload(p: Packet, w: Writer) returns (failure: Option<CodecError>)
    requires IsPacket(p)
    modifies w
    ensures Appended(old(w.written), w.written, Payload(p), failure)
  {
    match p {
      case TypedPacket(_, types, fields) =>
        failure := EncodeStruct(types, fields, w);
      case UnknownPacket(_, payload) =>
        w.WriteAll(payload);
        return None;
    }
  }
}
