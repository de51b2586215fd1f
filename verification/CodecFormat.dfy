/** The encodings themselves, byte by byte, and what becomes of inputs that are none. */
module CodecFormat {
  import opened Wrappers
  import opened Bytes
  import opened Codec
  import opened CodecLaws
  import Utf8

  // ---------------------------------------------------------------- where the bytes are

  /** A length prefix: four bytes that weigh the length, as far as 32 bits can. */
  lemma LengthFormat(n: nat)
    ensures |EncodeLength(n)| == 4 && FromBigEndian(EncodeLength(n)) == n % U32_LIMIT
  {
    assert Pow256(4) == U32_LIMIT;
    FromBigEndianInverts(n % U32_LIMIT, 4);
  }

  /** A flag is one byte; 1 stands for true. */
  lemma BoolFormat(b: bool)
    ensures HasType(TBool, VBool(b)) && Encode(TBool, VBool(b)) == Ok([if b then 1 else 0])
  {
  }

  /** An integer takes exactly its width and is congruent to the bytes, most significant first. */
  lemma IntFormat(width: nat, signed: bool, i: int)
    requires InRange(width, signed, i)
    ensures var e := Encode(TInt(width, signed), VInt(i));
            e.Ok? && |e.value| == width && (FromBigEndian(e.value) - i) % Pow256(width) == 0
  {
    hide BigEndian, FromBigEndian;
    var n := ToWord(width, signed, i);
    FromBigEndianInverts(n, width);
    SameModulo(n, i, Pow256(width));
  }

  /** A float is its bit pattern, most significant byte first. */
  lemma FloatFormat(width: nat, bits: nat)
    requires bits < Pow256(width)
    ensures var e := Encode(TFloat(width), VFloat(bits));
            e.Ok? && |e.value| == width && FromBigEndian(e.value) == bits
  {
    FromBigEndianInverts(bits, width);
  }

  lemma SameModulo(n: int, i: int, m: int)
    requires m > 0 && (n == i || n == i + m)
    ensures (n - i) % m == 0
  {
  }

  /** The empty text is a single true flag; any other a false one, its length, and its bytes. */
  lemma TextFormat(text: seq<byte>)
    requires HasType(TString, VString(text))
    ensures var e := Encode(TString, VString(text)).value;
            if text == [] then e == [1]
            else |e| == 5 + |text| && e[0] == 0 && FromBigEndian(e[1..5]) == |text| % U32_LIMIT && e[5..] == text
  {
    hide FromBigEndian, EncodeLength;
    if text != [] {
      LengthFormat(|text|);
      var e := Encode(TString, VString(text)).value;
      assert e[1..5] == EncodeLength(|text|);
    }
  }

  /** Nothing is a true flag; a value follows a false one. */
  lemma OptionFormat(t: Type, v: Value)
    requires HasType(t, v) && NoUnknown(v)
    ensures Encode(TOption(t), VNone) == Ok([1])
    ensures Encode(t, v).Ok? && Encode(TOption(t), VSome(v)) == Ok([0] + Encode(t, v).value)
  {
    EncodeOkIff(t, v);
  }

  /** A code is a signed 32-bit word. */
  lemma EnumFormat(codes: seq<int>, code: int)
    requires code in codes && IsI32(code)
    ensures var e := Encode(TEnum(codes), VEnum(code));
            e.Ok? && |e.value| == 4 && (FromBigEndian(e.value) - code) % U32_LIMIT == 0
  {
    assert Pow256(4) == U32_LIMIT;
    FromBigEndianInverts(ToWord(4, true, code), 4);
  }

  /** A vector is its length and then its elements. */
  lemma VecFormat(t: Type, vs: seq<Value>)
    requires HasType(TVec(t), VVec(vs)) && AllKnown(vs)
    ensures EncodeElements(t, vs).Ok?
    ensures var e := Encode(TVec(t), VVec(vs)).value;
            |e| >= 4 && FromBigEndian(e[..4]) == |vs| % U32_LIMIT && e[4..] == EncodeElements(t, vs).value
  {
    hide FromBigEndian, EncodeLength;
    EncodeElementsOkIff(t, vs);
    LengthFormat(|vs|);
    assert Encode(TVec(t), VVec(vs)).value[..4] == EncodeLength(|vs|);
  }

  /** Elements stand one behind the other, first ones first. */
  lemma {:induction false} ElementsFormat(t: Type, a: seq<Value>, b: seq<Value>)
    requires forall v :: v in a ==> HasType(t, v)
    requires forall v :: v in b ==> HasType(t, v)
    requires EncodeElements(t, a).Ok? && EncodeElements(t, b).Ok?
    ensures EncodeElements(t, a + b) == Ok(EncodeElements(t, a).value + EncodeElements(t, b).value)
  {
    hide Encode, HasType;
    if a == [] {
      assert a + b == b;
      assert [] + EncodeElements(t, b).value == EncodeElements(t, b).value;
    } else {
      ElementsFormat(t, a[1..], b);
      assert (a + b)[1..] == a[1..] + b && (a + b)[0] == a[0];
      var head, rest := Encode(t, a[0]).value, EncodeElements(t, a[1..]).value;
      assert head + (rest + EncodeElements(t, b).value) == head + rest + EncodeElements(t, b).value;
    }
  }

  /** So do the fields of a struct. */
  lemma FieldsFormat(t: Type, ts: seq<Type>, v: Value, vs: seq<Value>)
    requires HasType(t, v) && HaveTypes(ts, vs) && Encode(t, v).Ok? && EncodeFields(ts, vs).Ok?
    ensures HaveTypes([t] + ts, [v] + vs)
    ensures EncodeFields([t] + ts, [v] + vs) == Ok(Encode(t, v).value + EncodeFields(ts, vs).value)
  {
    assert ([t] + ts)[1..] == ts && ([v] + vs)[1..] == vs;
  }

  /** Any byte but zero is a true flag: a true value, nothing, or the empty text, and nothing more is read. */
  lemma EveryOtherFlagIsTrue(flag: byte, rest: seq<byte>, t: Type)
    requires flag > 0
    ensures Decode(TBool, [flag] + rest) == Ok((VBool(true), rest))
    ensures Decode(TOption(t), [flag] + rest) == Ok((VNone, rest))
    ensures Decode(TString, [flag] + rest) == Ok((VString([]), rest))
  {
    assert ([flag] + rest)[1..] == rest && ([flag] + rest)[..1] == [flag];
  }

  // ---------------------------------------------------------------- inputs that are no encodings

  lemma ShortReadFails(n: nat, s: seq<byte>)
    requires |s| < n
    ensures ReadExact(n, s) == Err(UnexpectedEof)
    ensures ReadWord(n, s) == Err(UnexpectedEof)
    ensures n == 1 ==> ReadBool(s) == Err(UnexpectedEof) && DecodeText(s) == Err(UnexpectedEof)
  {
  }

  lemma CutAfter(a: seq<byte>, b: seq<byte>, k: nat)
    requires |a| <= k <= |a + b|
    ensures (a + b)[..k] == a + b[..k - |a|]
  {
  }

  lemma CutWithin(a: seq<byte>, b: seq<byte>, k: nat)
    requires k <= |a|
    ensures (a + b)[..k] == a[..k]
  {
  }

  /** No front of an encoding is one: cut anywhere before its end, it is reported as ending too early. */
  lemma {:induction false} CutShortIsEof(t: Type, v: Value, k: nat)
    requires HasType(t, v) && NoUnknown(v) && Fits(v) && Encode(t, v).Ok? && k < |Encode(t, v).value|
    ensures Decode(t, Encode(t, v).value[..k]) == Err(UnexpectedEof)
    decreases v, 3
  {
    hide ReadExact, ReadWord, ReadBool, DecodeText, EncodeLength, BigEndian;
    var s := Encode(t, v).value[..k];
    match t
    case TBool => ShortReadFails(1, s);
    case TInt(width, _) => ShortReadFails(width, s);
    case TFloat(width) => ShortReadFails(width, s);
    case TEnum(_) => ShortReadFails(4, s);
    case TString => TextCutShort(v.text, k);
    case TVec(element) => VecCutShort(element, v.elements, k);
    case TOption(content) => OptionCutShort(content, v, k);
    case TStruct(fields) => FieldsCutShort(fields, v.members, k);
  }

  lemma TextCutShort(text: seq<byte>, k: nat)
    requires HasType(TString, VString(text)) && |text| < U32_LIMIT && k < |Encode(TString, VString(text)).value|
    ensures Decode(TString, Encode(TString, VString(text)).value[..k]) == Err(UnexpectedEof)
  {
    hide FromBigEndian, EncodeLength, Utf8.IsText;
    var e := Encode(TString, VString(text)).value;
    TextFormat(text);
    var s := e[..k];
    if k >= 1 {
      assert s[1..] == e[1..k];
      if k >= 5 {
        assert s[1..][..4] == e[1..5];
      }
    }
  }

  lemma {:induction false} VecCutShort(t: Type, vs: seq<Value>, k: nat)
    requires HasType(TVec(t), VVec(vs)) && AllKnown(vs) && AllFit(vs) && |vs| < U32_LIMIT
    requires Encode(TVec(t), VVec(vs)).Ok? && k < |Encode(TVec(t), VVec(vs)).value|
    ensures Decode(TVec(t), Encode(TVec(t), VVec(vs)).value[..k]) == Err(UnexpectedEof)
    decreases vs, 2
  {
    hide FromBigEndian, EncodeLength;
    var e := Encode(TVec(t), VVec(vs)).value;
    VecFormat(t, vs);
    var s := e[..k];
    if k >= 4 {
      assert s[..4] == e[..4] && s[4..] == e[4..][..k - 4];
      ElementsCutShort(t, vs, k - 4);
    }
  }

  lemma {:induction false} OptionCutShort(t: Type, v: Value, k: nat)
    requires HasType(TOption(t), v) && NoUnknown(v) && Fits(v)
    requires Encode(TOption(t), v).Ok? && k < |Encode(TOption(t), v).value|
    ensures Decode(TOption(t), Encode(TOption(t), v).value[..k]) == Err(UnexpectedEof)
    decreases v, 2
  {
    if k > 0 {
      var body := Encode(t, v.content).value;
      CutShortIsEof(t, v.content, k - 1);
      assert ([0] + body)[..k][1..] == body[..k - 1];
    }
  }

  lemma {:induction false} ElementsCutShort(t: Type, vs: seq<Value>, k: nat)
    requires (forall v :: v in vs ==> HasType(t, v)) && AllKnown(vs) && AllFit(vs)
    requires EncodeElements(t, vs).Ok? && k < |EncodeElements(t, vs).value|
    ensures DecodeElements(t, |vs|, EncodeElements(t, vs).value[..k]) == Err(UnexpectedEof)
    decreases vs, 1
  {
    hide Encode, Decode, HasType, NoUnknown, Fits;
    var head, tail := Encode(t, vs[0]).value, EncodeElements(t, vs[1..]).value;
    if k < |head| {
      CutWithin(head, tail, k);
      CutShortIsEof(t, vs[0], k);
    } else {
      CutAfter(head, tail, k);
      RoundTrip(t, vs[0], tail[..k - |head|]);
      ElementsCutShort(t, vs[1..], k - |head|);
    }
  }

  lemma {:induction false} FieldsCutShort(ts: seq<Type>, vs: seq<Value>, k: nat)
    requires HaveTypes(ts, vs) && AllKnown(vs) && AllFit(vs)
    requires EncodeFields(ts, vs).Ok? && k < |EncodeFields(ts, vs).value|
    ensures DecodeFields(ts, EncodeFields(ts, vs).value[..k]) == Err(UnexpectedEof)
    decreases vs, 1
  {
    hide Encode, Decode, HasType, NoUnknown, Fits;
    var head, tail := Encode(ts[0], vs[0]).value, EncodeFields(ts[1..], vs[1..]).value;
    if k < |head| {
      CutWithin(head, tail, k);
      CutShortIsEof(ts[0], vs[0], k);
    } else {
      CutAfter(head, tail, k);
      RoundTrip(ts[0], vs[0], tail[..k - |head|]);
      FieldsCutShort(ts[1..], vs[1..], k - |head|);
    }
  }

  /** Bytes that are no text are refused as such, however long they are and whatever follows. */
  lemma NoTextIsRefused(bytes: seq<byte>, rest: seq<byte>)
    requires |bytes| < U32_LIMIT && !Utf8.IsText(bytes)
    ensures Decode(TString, [0] + EncodeLength(|bytes|) + bytes + rest) == Err(Utf8Error)
  {
    hide Utf8.IsText, EncodeLength;
    var s := [0] + EncodeLength(|bytes|) + bytes + rest;
    assert s == EncodeBool(false) + (EncodeLength(|bytes|) + (bytes + rest));
    ReadBoolInverts(false, EncodeLength(|bytes|) + (bytes + rest));
    ReadLengthInverts(|bytes|, bytes + rest);
    assert (bytes + rest)[..|bytes|] == bytes;
  }

  /** A word that is none of the codes is refused, and reported modulo 2^64. */
  lemma NoCodeIsRefused(codes: seq<int>, code: int, rest: seq<byte>)
    requires IsI32(code) && code !in codes
    ensures var d := Decode(TEnum(codes), EncodeI32(code) + rest);
            && d.Err? && d.error.EnumInvalidOrdinal?
            && d.error.ordinal < 0x1_0000_0000_0000_0000
            && (d.error.ordinal - code) % 0x1_0000_0000_0000_0000 == 0
  {
    assert Pow256(4) == U32_LIMIT;
    ReadWordInverts(ToWord(4, true, code), 4, rest);
    WordInverts(4, true, code);
  }

  /** A value that was never set is refused, with the one error encoding has. */
  lemma {:induction false} UnknownIsRefused(t: Type, v: Value)
    requires HasType(t, v) && !NoUnknown(v)
    ensures Encode(t, v) == Err(EnumUnknown)
    decreases v, 0
  {
    match t
    case TVec(element) => UnknownElementIsRefused(element, v.elements);
    case TOption(content) => UnknownIsRefused(content, v.content);
    case TStruct(fields) => UnknownFieldIsRefused(fields, v.members);
    case _ =>
  }

  lemma {:induction false} UnknownElementIsRefused(t: Type, vs: seq<Value>)
    requires (forall v :: v in vs ==> HasType(t, v)) && !AllKnown(vs)
    ensures EncodeElements(t, vs) == Err(EnumUnknown)
    decreases vs, 1
  {
    hide Encode, HasType, NoUnknown;
    if NoUnknown(vs[0]) {
      EncodeOkIff(t, vs[0]);
      UnknownElementIsRefused(t, vs[1..]);
    } else {
      UnknownIsRefused(t, vs[0]);
    }
  }

  lemma {:induction false} UnknownFieldIsRefused(ts: seq<Type>, vs: seq<Value>)
    requires HaveTypes(ts, vs) && !AllKnown(vs)
    ensures EncodeFields(ts, vs) == Err(EnumUnknown)
    decreases vs, 1
  {
    hide Encode, HasType, NoUnknown;
    if NoUnknown(vs[0]) {
      EncodeOkIff(ts[0], vs[0]);
      UnknownFieldIsRefused(ts[1..], vs[1..]);
    } else {
      UnknownIsRefused(ts[0], vs[0]);
    }
  }
}
