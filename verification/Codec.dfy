/**
  The type-directed codec: every packet is a list of fields over the types below. `Encode` and `Decode`
  are the meaning of the encoders and decoders; CodecIO.dfy holds the readers and writers proved against them.
 */
module Codec {
  import opened Wrappers
  import opened Bytes
  import Utf8

  const U32_LIMIT: nat := 0x1_0000_0000

  datatype Type =
    | TBool
    | TInt(width: nat, signed: bool)
    | TFloat(floatWidth: nat)
    | TString
    | TVec(element: Type)
    | TOption(content: Type)
    | TEnum(codes: seq<int>)
    | TStruct(fields: seq<Type>)

  /** Floats are bit patterns and strings are their UTF-8 bytes. */
  datatype Value =
    | VBool(flag: bool)
    | VInt(number: int)
    | VFloat(bits: nat)
    | VString(text: seq<byte>)
    | VVec(elements: seq<Value>)
    | VNone
    | VSome(content: Value)
    | VEnum(code: int)
    | VUnknown
    | VStruct(members: seq<Value>)

  datatype CodecError =
    | UnexpectedEof
    | Utf8Error
    | EnumInvalidOrdinal(ordinal: nat)
    | EnumUnknown

  type Encoded = Result<seq<byte>, CodecError>
  type Decoded = Result<(Value, seq<byte>), CodecError>
  type DecodedMany = Result<(seq<Value>, seq<byte>), CodecError>

  // ---------------------------------------------------------------- values

  predicate InRange(width: nat, signed: bool, i: int) {
    if signed then -(Pow256(width) / 2) <= i < Pow256(width) - Pow256(width) / 2
    else 0 <= i < Pow256(width)
  }

  /** The two's complement word of an integer. */
  function ToWord(width: nat, signed: bool, i: int): (n: nat)
    requires InRange(width, signed, i)
    ensures n < Pow256(width)
  {
    if i < 0 then i + Pow256(width) else i
  }

  function OfWord(width: nat, signed: bool, n: nat): (i: int)
    requires n < Pow256(width)
    ensures InRange(width, signed, i)
  {
    if signed && n >= Pow256(width) - Pow256(width) / 2 then n - Pow256(width) else n
  }

  predicate IsI32(i: int) {
    -0x8000_0000 <= i < 0x8000_0000
  }

  predicate HasType(t: Type, v: Value)
    decreases t, v
  {
    match t
    case TBool => v.VBool?
    case TInt(width, signed) => v.VInt? && InRange(width, signed, v.number)
    case TFloat(width) => v.VFloat? && v.bits < Pow256(width)
    case TString => v.VString? && Utf8.IsText(v.text)
    case TVec(element) => v.VVec? && forall e :: e in v.elements ==> HasType(element, e)
    case TOption(content) => v.VNone? || (v.VSome? && HasType(content, v.content))
    case TEnum(codes) => v.VUnknown? || (v.VEnum? && v.code in codes && IsI32(v.code))
    case TStruct(fields) => v.VStruct? && HaveTypes(fields, v.members)
  }

  predicate HaveTypes(ts: seq<Type>, vs: seq<Value>)
    decreases ts, vs
  {
    |ts| == |vs| && (ts == [] || (HasType(ts[0], vs[0]) && HaveTypes(ts[1..], vs[1..])))
  }

  /** No enumeration inside `v` is still at its default, the variant without a code. */
  predicate NoUnknown(v: Value) {
    match v
    case VVec(elements) => AllKnown(elements)
    case VSome(content) => NoUnknown(content)
    case VUnknown => false
    case VStruct(members) => AllKnown(members)
    case _ => true
  }

  predicate AllKnown(vs: seq<Value>) {
    vs == [] || (NoUnknown(vs[0]) && AllKnown(vs[1..]))
  }

  /** Every string and vector inside `v` has a length that its 32-bit prefix can hold. */
  predicate Fits(v: Value) {
    match v
    case VString(text) => |text| < U32_LIMIT
    case VVec(elements) => |elements| < U32_LIMIT && AllFit(elements)
    case VSome(content) => Fits(content)
    case VStruct(members) => AllFit(members)
    case _ => true
  }

  predicate AllFit(vs: seq<Value>) {
    vs == [] || (Fits(vs[0]) && AllFit(vs[1..]))
  }

  // ---------------------------------------------------------------- encoding

  function EncodeBool(b: bool): seq<byte> {
    [if b then 1 else 0]
  }

  /** A length cast to 32 bits: longer lengths wrap. */
  function EncodeLength(n: nat): seq<byte>
    ensures |EncodeLength(n)| == 4
  {
    assert Pow256(4) == U32_LIMIT;
    BigEndian(n % U32_LIMIT, 4)
  }

  function EncodeI32(i: int): seq<byte>
    requires IsI32(i)
  {
    assert Pow256(4) == U32_LIMIT;
    BigEndian(ToWord(4, true, i), 4)
  }

  function Encode(t: Type, v: Value): Encoded
    requires HasType(t, v)
    decreases v, 0
  {
    match t
    case TBool => Ok(EncodeBool(v.flag))
    case TInt(width, signed) => Ok(BigEndian(ToWord(width, signed, v.number), width))
    case TFloat(width) => Ok(BigEndian(v.bits, width))
    case TString =>
      if v.text == [] then Ok(EncodeBool(true))
      else Ok(EncodeBool(false) + EncodeLength(|v.text|) + v.text)
    case TVec(element) =>
      var body :- EncodeElements(element, v.elements);
      Ok(EncodeLength(|v.elements|) + body)
    case TOption(content) =>
      if v.VNone? then Ok(EncodeBool(true))
      else
        var body :- Encode(content, v.content);
        Ok(EncodeBool(false) + body)
    case TEnum(codes) =>
      if v.VUnknown? then Err(EnumUnknown) else Ok(EncodeI32(v.code))
    case TStruct(fields) => EncodeFields(fields, v.members)
  }

  function EncodeElements(t: Type, vs: seq<Value>): Encoded
    requires forall v :: v in vs ==> HasType(t, v)
    decreases vs, 1
  {
    if vs == [] then Ok([])
    else
      var head :- Encode(t, vs[0]);
      var tail :- EncodeElements(t, vs[1..]);
      Ok(head + tail)
  }

  function EncodeFields(ts: seq<Type>, vs: seq<Value>): Encoded
    requires HaveTypes(ts, vs)
    decreases vs, 1
  {
    if vs == [] then Ok([])
    else
      var head :- Encode(ts[0], vs[0]);
      var tail :- EncodeFields(ts[1..], vs[1..]);
      Ok(head + tail)
  }

  // ---------------------------------------------------------------- decoding

  /** The next `n` bytes and the rest, or the end-of-input error of an exact read. */
  function ReadExact(n: nat, s: seq<byte>): Result<(seq<byte>, seq<byte>), CodecError> {
    if |s| < n then Err(UnexpectedEof) else Ok((s[..n], s[n..]))
  }

  function ReadBool(s: seq<byte>): Result<(bool, seq<byte>), CodecError> {
    var (bytes, rest) :- ReadExact(1, s);
    Ok((bytes[0] > 0, rest))
  }

  function ReadWord(width: nat, s: seq<byte>): (r: Result<(nat, seq<byte>), CodecError>)
    ensures r.Ok? ==> r.value.0 < Pow256(width)
  {
    var (bytes, rest) :- ReadExact(width, s);
    Ok((FromBigEndian(bytes), rest))
  }

  /** The 64-bit pattern under which a rejected code is reported. */
  function AsU64(code: int): (n: nat)
    requires IsI32(code)
    ensures n < 0x1_0000_0000_0000_0000 && (n - code) % 0x1_0000_0000_0000_0000 == 0
  {
    if code < 0 then code + 0x1_0000_0000_0000_0000 else code
  }

  function DecodeText(s: seq<byte>): Result<(seq<byte>, seq<byte>), CodecError> {
    var (empty, rest) :- ReadBool(s);
    if empty then Ok(([], rest))
    else
      var (length, rest) :- ReadWord(4, rest);
      var (text, rest) :- ReadExact(length, rest);
      if Utf8.IsText(text) then Ok((text, rest)) else Err(Utf8Error)
  }

  function Decode(t: Type, s: seq<byte>): Decoded
    decreases t, 0, 0
  {
    match t
    case TBool =>
      var (b, rest) :- ReadBool(s);
      Ok((VBool(b), rest))
    case TInt(width, signed) =>
      var (n, rest) :- ReadWord(width, s);
      Ok((VInt(OfWord(width, signed, n)), rest))
    case TFloat(width) =>
      var (n, rest) :- ReadWord(width, s);
      Ok((VFloat(n), rest))
    case TString =>
      var (text, rest) :- DecodeText(s);
      Ok((VString(text), rest))
    case TVec(element) =>
      var (size, rest) :- ReadWord(4, s);
      var (elements, rest) :- DecodeElements(element, size, rest);
      Ok((VVec(elements), rest))
    case TOption(content) =>
      var (empty, rest) :- ReadBool(s);
      if empty then Ok((VNone, rest))
      else
        var (v, rest) :- Decode(content, rest);
        Ok((VSome(v), rest))
    case TEnum(codes) =>
      var (n, rest) :- ReadWord(4, s);
      var code := OfWord(4, true, n);
      assert Pow256(4) == U32_LIMIT;
      if code in codes then Ok((VEnum(code), rest)) else Err(EnumInvalidOrdinal(AsU64(code)))
    case TStruct(fields) =>
      var (members, rest) :- DecodeFields(fields, s);
      Ok((VStruct(members), rest))
  }

  function DecodeElements(t: Type, n: nat, s: seq<byte>): DecodedMany
    decreases t, 1, n
  {
    if n == 0 then Ok(([], s))
    else
      var (v, rest) :- Decode(t, s);
      var (vs, rest) :- DecodeElements(t, n - 1, rest);
      Ok(([v] + vs, rest))
  }

  function DecodeFields(ts: seq<Type>, s: seq<byte>): DecodedMany
    decreases ts, 0, 0
  {
    if ts == [] then Ok(([], s))
    else
      var (v, rest) :- Decode(ts[0], s);
      var (vs, rest) :- DecodeFields(ts[1..], rest);
      Ok(([v] + vs, rest))
  }
}
