/** The encoders and decoders as they run: appending to a writer, and assigning in place from a reader. */
module CodecIO {
  import opened Wrappers
  import opened Bytes
  import opened Codec
  import Utf8

  class Writer {
    var written: seq<byte>

    constructor ()
      ensures written == []
    {
      written := [];
    }

    method WriteAll(bytes: seq<byte>)
      modifies this
      ensures written == old(written) + bytes
    {
      written := written + bytes;
    }
  }

  class Reader {
    const data: seq<byte>
    var position: nat

    ghost predicate Valid()
      reads this
    {
      position <= |data|
    }

    ghost function Rest(): seq<byte>
      requires Valid()
      reads this
    {
      data[position..]
    }

    constructor (data: seq<byte>)
      ensures Valid() && this.data == data && position == 0 && Rest() == data
    {
      this.data := data;
      position := 0;
    }

    method Exact(n: nat) returns (r: Result<seq<byte>, CodecError>)
      requires Valid()
      modifies this
      ensures Valid()
      ensures match ReadExact(n, old(Rest()))
              case Err(e) => r == Err(e)
              case Ok((bytes, rest)) => r == Ok(bytes) && Rest() == rest
    {
      if |data| - position < n {
        return Err(UnexpectedEof);
      }
      var bytes := data[position..position + n];
      position := position + n;
      assert data[old(position)..][..n] == bytes;
      assert data[old(position)..][n..] == data[position..];
      return Ok(bytes);
    }

    method Bool() returns (r: Result<bool, CodecError>)
      requires Valid()
      modifies this
      ensures Valid()
      ensures match ReadBool(old(Rest()))
              case Err(e) => r == Err(e)
              case Ok((flag, rest)) => r == Ok(flag) && Rest() == rest
    {
      var bytes :- Exact(1);
      return Ok(bytes[0] > 0);
    }

    method Word(width: nat) returns (r: Result<nat, CodecError>)
      requires Valid()
      modifies this
      ensures Valid()
      ensures match ReadWord(width, old(Rest()))
              case Err(e) => r == Err(e)
              case Ok((n, rest)) => r == Ok(n) && Rest() == rest
    {
      var bytes :- Exact(width);
      return Ok(FromBigEndian(bytes));
    }

    method ToEnd() returns (bytes: seq<byte>)
      requires Valid()
      modifies this
      ensures Valid()
      ensures bytes == old(Rest()) && Rest() == []
    {
      bytes := data[position..];
      position := |data|;
    }
  }

  // ---------------------------------------------------------------- encoding

  /** What the writer holds after an encoder ran: the whole encoding, or some part of it when the encoder failed. */
  ghost predicate Appended(before: seq<byte>, after: seq<byte>, expected: Encoded, outcome: Option<CodecError>) {
    match expected
    case Ok(bytes) => outcome == None && after == before + bytes
    case Err(e) => outcome == Some(e) && before <= after
  }

  method EncodeValue(t: Type, v: Value, w: Writer) returns (failure: Option<CodecError>)
    requires HasType(t, v)
    modifies w
    ensures Appended(old(w.written), w.written, Encode(t, v), failure)
    decreases v, 0
  {
    match t {
      case TBool => w.WriteAll(EncodeBool(v.flag)); return None;
      case TInt(width, signed) => w.WriteAll(BigEndian(ToWord(width, signed, v.number), width)); return None;
      case TFloat(width) => w.WriteAll(BigEndian(v.bits, width)); return None;
      case TString =>
        if v.text == [] {
          w.WriteAll(EncodeBool(true));
        } else {
          w.WriteAll(EncodeBool(false));
          w.WriteAll(EncodeLength(|v.text|));
          w.WriteAll(v.text);
        }
        return None;
      case TVec(element) =>
        w.WriteAll(EncodeLength(|v.elements|));
        failure := EncodeEntries(element, v.elements, w);
      case TOption(content) =>
        if v.VSome? {
          w.WriteAll(EncodeBool(false));
          failure := EncodeValue(content, v.content, w);
        } else {
          w.WriteAll(EncodeBool(true));
          return None;
        }
      case TEnum(codes) =>
        if v.VUnknown? {
          return Some(EnumUnknown);
        }
        w.WriteAll(EncodeI32(v.code));
        return None;
      case TStruct(fields) =>
        failure := EncodeStruct(fields, v.members, w);
    }
  }

  /** With `done` written so far, `remaining` is what completes `whole`. */
  ghost predicate Extends(whole: Encoded, done: seq<byte>, remaining: Encoded) {
    match remaining
    case Ok(tail) => whole.Ok? && done + tail == whole.value
    case Err(e) => whole == Err(e)
  }

  /** Moving the first part of what remains to what is done. */
  lemma ExtendsPart(whole: Encoded, done: seq<byte>, head: Encoded, tail: Encoded, remaining: Encoded)
    requires Extends(whole, done, remaining)
    requires remaining == if head.Err? then head else if tail.Err? then tail else Ok(head.value + tail.value)
    ensures match head
            case Ok(bytes) => Extends(whole, done + bytes, tail)
            case Err(e) => whole == Err(e)
  {
    if head.Ok? && tail.Ok? {
      assert done + (head.value + tail.value) == done + head.value + tail.value;
    }
  }

  method EncodeEntries(t: Type, vs: seq<Value>, w: Writer) returns (failure: Option<CodecError>)
    requires forall v :: v in vs ==> HasType(t, v)
    modifies w
    ensures Appended(old(w.written), w.written, EncodeElements(t, vs), failure)
    decreases vs, 1
  {
    hide Encode, HasType;
    ghost var done, whole := [], EncodeElements(t, vs);
    for i := 0 to |vs|
      invariant w.written == old(w.written) + done
      invariant Extends(whole, done, EncodeElements(t, vs[i..]))
    {
      var rest := vs[i..];
      assert rest[1..] == vs[i + 1..];
      ExtendsPart(whole, done, Encode(t, vs[i]), EncodeElements(t, vs[i + 1..]), EncodeElements(t, rest));
      failure := EncodeValue(t, vs[i], w);
      if failure.Some? {
        return;
      }
      done := done + Encode(t, vs[i]).value;
    }
    assert done + [] == done;
    return None;
  }

  method EncodeStruct(ts: seq<Type>, vs: seq<Value>, w: Writer) returns (failure: Option<CodecError>)
    requires HaveTypes(ts, vs)
    modifies w
    ensures Appended(old(w.written), w.written, EncodeFields(ts, vs), failure)
    decreases vs, 1
  {
    ghost var done, whole := [], EncodeFields(ts, vs);
    for i := 0 to |vs|
      invariant HaveTypes(ts[i..], vs[i..])
      invariant w.written == old(w.written) + done
      invariant Extends(whole, done, EncodeFields(ts[i..], vs[i..]))
    {
      var types, rest := ts[i..], vs[i..];
      assert rest[1..] == vs[i + 1..] && types[1..] == ts[i + 1..];
      ExtendsPart(whole, done, Encode(ts[i], vs[i]), EncodeFields(types[1..], rest[1..]), EncodeFields(types, rest));
      failure := EncodeValue(ts[i], vs[i], w);
      if failure.Some? {
        return;
      }
      done := done + Encode(ts[i], vs[i]).value;
    }
    assert done + [] == done;
    return None;
  }

  // ---------------------------------------------------------------- decoding in place

  /** The value a freshly created target holds. */
  function Default(t: Type): (v: Value)
    ensures HasShape(t, v)
    decreases t, 0
  {
    match t
    case TBool => VBool(false)
    case TInt(_, _) => VInt(0)
    case TFloat(_) => VFloat(0)
    case TString => VString([])
    case TVec(_) => VVec([])
    case TOption(_) => VNone
    case TEnum(_) => VUnknown
    case TStruct(fields) => VStruct(Defaults(fields))
  }

  function Defaults(ts: seq<Type>): (vs: seq<Value>)
    ensures HaveShapes(ts, vs)
    decreases ts, 0
  {
    if ts == [] then [] else [Default(ts[0])] + Defaults(ts[1..])
  }

  /** `v` can be the target of a decode at type `t`; its contents are of no interest. */
  predicate HasShape(t: Type, v: Value)
    decreases t, v
  {
    match t
    case TVec(element) => v.VVec? && forall e :: e in v.elements ==> HasShape(element, e)
    case TStruct(fields) => v.VStruct? && HaveShapes(fields, v.members)
    case _ => true
  }

  predicate HaveShapes(ts: seq<Type>, vs: seq<Value>)
    decreases ts, vs
  {
    |ts| == |vs| && (ts == [] || (HasShape(ts[0], vs[0]) && HaveShapes(ts[1..], vs[1..])))
  }

  /**
    Decodes over `target`. Whatever it held before, the new value and the bytes consumed are those of `Decode`,
    so a successful decode never lets the past through.
   */
  method DecodeValue(t: Type, target: Value, r: Reader) returns (result: Result<Value, CodecError>)
    requires HasShape(t, target) && r.Valid()
    modifies r
    ensures r.Valid()
    ensures match Decode(t, old(r.Rest()))
            case Err(e) => result == Err(e)
            case Ok((v, rest)) => result == Ok(v) && r.Rest() == rest
    decreases t, 0
  {
    match t {
      case TBool =>
        var flag :- r.Bool();
        return Ok(VBool(flag));
      case TInt(width, signed) =>
        var n :- r.Word(width);
        return Ok(VInt(OfWord(width, signed, n)));
      case TFloat(width) =>
        var n :- r.Word(width);
        return Ok(VFloat(n));
      case TString =>
        var text :- DecodeString(r);
        return Ok(VString(text));
      case TVec(element) =>
        var size :- r.Word(4);
        var elements :- DecodeVec(element, size, target.elements, r);
        return Ok(VVec(elements));
      case TOption(content) =>
        var empty :- r.Bool();
        if empty {
          return Ok(VNone);
        }
        var entry :- DecodeValue(content, Default(content), r);
        return Ok(VSome(entry));
      case TEnum(codes) =>
        var n :- r.Word(4);
        var code := OfWord(4, true, n);
        assert Pow256(4) == U32_LIMIT;
        return if code in codes then Ok(VEnum(code)) else Err(EnumInvalidOrdinal(AsU64(code)));
      case TStruct(fields) =>
        var members :- DecodeStruct(fields, target.members, r);
        return Ok(VStruct(members));
    }
  }

  method DecodeString(r: Reader) returns (result: Result<seq<byte>, CodecError>)
    requires r.Valid()
    modifies r
    ensures r.Valid()
    ensures match DecodeText(old(r.Rest()))
            case Err(e) => result == Err(e)
            case Ok((text, rest)) => result == Ok(text) && r.Rest() == rest
  {
    var empty :- r.Bool();
    if empty {
      return Ok([]);
    }
    var length :- r.Word(4);
    var text :- r.Exact(length);
    return if Utf8.IsText(text) then Ok(text) else Err(Utf8Error);
  }

  /** The target grown with defaults, or cut, to `size` elements. */
  function Resized(t: Type, old_: seq<Value>, size: nat): (vs: seq<Value>)
    requires forall e :: e in old_ ==> HasShape(t, e)
    ensures |vs| == size && forall e :: e in vs ==> HasShape(t, e)
  {
    if |old_| >= size then old_[..size] else old_ + seq(size - |old_|, _ => Default(t))
  }

  /** With `done` read so far, `remaining` is what completes `whole`. */
  ghost predicate Completes(whole: DecodedMany, done: seq<Value>, remaining: DecodedMany) {
    match remaining
    case Err(e) => whole == Err(e)
    case Ok((tail, rest)) => whole.Ok? && whole.value.0 == done + tail && whole.value.1 == rest
  }

  lemma CompletesOne(whole: DecodedMany, done: seq<Value>, head: Decoded, tail: DecodedMany, remaining: DecodedMany)
    requires Completes(whole, done, remaining)
    requires remaining == if head.Err? then Err(head.error) else if tail.Err? then tail
                          else Ok(([head.value.0] + tail.value.0, tail.value.1))
    ensures match head
            case Err(e) => whole == Err(e)
            case Ok((v, _)) => Completes(whole, done + [v], tail)
  {
    if head.Ok? && tail.Ok? {
      assert done + ([head.value.0] + tail.value.0) == done + [head.value.0] + tail.value.0;
    }
  }

  lemma CompletesElement(whole: DecodedMany, done: seq<Value>, t: Type, n: nat, s: seq<byte>)
    requires n > 0 && Completes(whole, done, DecodeElements(t, n, s))
    ensures match Decode(t, s)
            case Err(e) => whole == Err(e)
            case Ok((v, rest)) => Completes(whole, done + [v], DecodeElements(t, n - 1, rest))
  {
    if Decode(t, s).Ok? {
      CompletesOne(whole, done, Decode(t, s), DecodeElements(t, n - 1, Decode(t, s).value.1), DecodeElements(t, n, s));
    }
  }

  lemma CompletesMember(whole: DecodedMany, done: seq<Value>, ts: seq<Type>, s: seq<byte>)
    requires ts != [] && Completes(whole, done, DecodeFields(ts, s))
    ensures match Decode(ts[0], s)
            case Err(e) => whole == Err(e)
            case Ok((v, rest)) => Completes(whole, done + [v], DecodeFields(ts[1..], rest))
  {
    if Decode(ts[0], s).Ok? {
      CompletesOne(whole, done, Decode(ts[0], s), DecodeFields(ts[1..], Decode(ts[0], s).value.1), DecodeFields(ts, s));
    }
  }

  method DecodeVec(t: Type, size: nat, target: seq<Value>, r: Reader) returns (result: Result<seq<Value>, CodecError>)
    requires r.Valid() && forall e :: e in target ==> HasShape(t, e)
    modifies r
    ensures r.Valid()
    ensures match DecodeElements(t, size, old(r.Rest()))
            case Err(e) => result == Err(e)
            case Ok((vs, rest)) => result == Ok(vs) && r.Rest() == rest
    decreases t, 1
  {
    hide Decode, HasShape, ReadExact;
    var entries := Resized(t, target, size);
    ghost var whole, done := DecodeElements(t, size, r.Rest()), [];
    for i := 0 to size
      invariant r.Valid() && |entries| == size && |done| == i
      invariant forall j :: i <= j < size ==> HasShape(t, entries[j])
      invariant forall j :: 0 <= j < i ==> entries[j] == done[j]
      invariant Completes(whole, done, DecodeElements(t, size - i, r.Rest()))
    {
      CompletesElement(whole, done, t, size - i, r.Rest());
      var entry :- DecodeValue(t, entries[i], r);
      entries := entries[i := entry];
      done := done + [entry];
    }
    assert done + [] == entries;
    return Ok(entries);
  }

  method DecodeStruct(ts: seq<Type>, target: seq<Value>, r: Reader) returns (result: Result<seq<Value>, CodecError>)
    requires r.Valid() && HaveShapes(ts, target)
    modifies r
    ensures r.Valid()
    ensures match DecodeFields(ts, old(r.Rest()))
            case Err(e) => result == Err(e)
            case Ok((vs, rest)) => result == Ok(vs) && r.Rest() == rest
    decreases ts, 1
  {
    var members := target;
    ghost var whole, done := DecodeFields(ts, r.Rest()), [];
    for i := 0 to |ts|
      invariant r.Valid() && |members| == |ts| && |done| == i
      invariant HaveShapes(ts[i..], members[i..])
      invariant forall j :: 0 <= j < i ==> members[j] == done[j]
      invariant Completes(whole, done, DecodeFields(ts[i..], r.Rest()))
    {
      ghost var rest := members[i..];
      assert ts[i..][1..] == ts[i + 1..] && rest[1..] == members[i + 1..];
      CompletesMember(whole, done, ts[i..], r.Rest());
      var member :- DecodeValue(ts[i], members[i], r);
      members := members[i := member];
      assert members[i + 1..] == rest[1..];
      done := done + [member];
    }
    assert done + [] == members;
    return Ok(members);
  }
}
