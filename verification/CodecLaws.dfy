/** What encoding and decoding promise each other. */
module CodecLaws {
  import opened Wrappers
  import opened Bytes
  import opened Codec

  // ---------------------------------------------------------------- words

  lemma WordInverts(width: nat, signed: bool, i: int)
    requires InRange(width, signed, i)
    ensures OfWord(width, signed, ToWord(width, signed, i)) == i
  {
  }

  lemma ReadBoolInverts(b: bool, rest: seq<byte>)
    ensures ReadBool(EncodeBool(b) + rest) == Ok((b, rest))
  {
    assert (EncodeBool(b) + rest)[1..] == rest;
  }

  lemma ReadWordInverts(n: nat, width: nat, rest: seq<byte>)
    requires n < Pow256(width)
    ensures ReadWord(width, BigEndian(n, width) + rest) == Ok((n, rest))
  {
    hide BigEndian, FromBigEndian;
    var s := BigEndian(n, width) + rest;
    assert s[..width] == BigEndian(n, width) && s[width..] == rest;
    FromBigEndianInverts(n, width);
  }

  lemma ReadLengthInverts(n: nat, rest: seq<byte>)
    requires n < U32_LIMIT
    ensures ReadWord(4, EncodeLength(n) + rest) == Ok((n, rest))
  {
    hide BigEndian, ReadWord;
    assert Pow256(4) == U32_LIMIT;
    ReadWordInverts(n, 4, rest);
  }

  // ---------------------------------------------------------------- encodability

  /** A value is refused exactly when some enumeration inside it is still `Unknown`. */
  lemma {:induction false} EncodeOkIff(t: Type, v: Value)
    requires HasType(t, v)
    ensures Encode(t, v).Ok? <==> NoUnknown(v)
    decreases v, 0
  {
    match t
    case TVec(element) => EncodeElementsOkIff(element, v.elements);
    case TOption(content) => if v.VSome? { EncodeOkIff(content, v.content); }
    case TStruct(fields) => EncodeFieldsOkIff(fields, v.members);
    case _ =>
  }

  lemma {:induction false} EncodeElementsOkIff(t: Type, vs: seq<Value>)
    requires forall v :: v in vs ==> HasType(t, v)
    ensures EncodeElements(t, vs).Ok? <==> AllKnown(vs)
    decreases vs, 1
  {
    if vs != [] {
      EncodeOkIff(t, vs[0]);
      EncodeElementsOkIff(t, vs[1..]);
    }
  }

  lemma {:induction false} EncodeFieldsOkIff(ts: seq<Type>, vs: seq<Value>)
    requires HaveTypes(ts, vs)
    ensures EncodeFields(ts, vs).Ok? <==> AllKnown(vs)
    decreases vs, 1
  {
    if vs != [] {
      EncodeOkIff(ts[0], vs[0]);
      EncodeFieldsOkIff(ts[1..], vs[1..]);
    }
  }

  // ---------------------------------------------------------------- round trip

  /** Decoding an encoding gives the value back and leaves exactly what followed it. */
  lemma {:induction false} RoundTrip(t: Type, v: Value, rest: seq<byte>)
    requires HasType(t, v) && NoUnknown(v) && Fits(v)
    ensures Encode(t, v).Ok?
    ensures Decode(t, Encode(t, v).value + rest) == Ok((v, rest))
    decreases v, 0
  {
    EncodeOkIff(t, v);
    var bytes := Encode(t, v).value;
    match t
    case TBool => ReadBoolInverts(v.flag, rest);
    case TInt(width, signed) =>
      ReadWordInverts(ToWord(width, signed, v.number), width, rest);
      WordInverts(width, signed, v.number);
    case TFloat(width) => ReadWordInverts(v.bits, width, rest);
    case TString => StringRoundTrip(v.text, rest);
    case TVec(element) =>
      var body := EncodeElements(element, v.elements).value;
      assert bytes + rest == EncodeLength(|v.elements|) + (body + rest);
      ReadLengthInverts(|v.elements|, body + rest);
      ElementsRoundTrip(element, v.elements, rest);
    case TOption(content) =>
      if v.VNone? {
        ReadBoolInverts(true, rest);
      } else {
        var body := Encode(content, v.content).value;
        assert bytes + rest == EncodeBool(false) + (body + rest);
        ReadBoolInverts(false, body + rest);
        RoundTrip(content, v.content, rest);
      }
    case TEnum(codes) =>
      assert Pow256(4) == U32_LIMIT;
      ReadWordInverts(ToWord(4, true, v.code), 4, rest);
      WordInverts(4, true, v.code);
    case TStruct(fields) => FieldsRoundTrip(fields, v.members, rest);
  }

  lemma StringRoundTrip(text: seq<byte>, rest: seq<byte>)
    requires HasType(TString, VString(text)) && |text| < U32_LIMIT
    ensures Decode(TString, Encode(TString, VString(text)).value + rest) == Ok((VString(text), rest))
  {
    var bytes := Encode(TString, VString(text)).value;
    if text == [] {
      ReadBoolInverts(true, rest);
    } else {
      assert bytes + rest == EncodeBool(false) + (EncodeLength(|text|) + (text + rest));
      ReadBoolInverts(false, EncodeLength(|text|) + (text + rest));
      ReadLengthInverts(|text|, text + rest);
      assert (text + rest)[..|text|] == text && (text + rest)[|text|..] == rest;
    }
  }

  lemma {:induction false} ElementsRoundTrip(t: Type, vs: seq<Value>, rest: seq<byte>)
    requires forall v :: v in vs ==> HasType(t, v)
    requires AllKnown(vs) && AllFit(vs)
    ensures EncodeElements(t, vs).Ok?
    ensures DecodeElements(t, |vs|, EncodeElements(t, vs).value + rest) == Ok((vs, rest))
    decreases vs, 1
  {
    hide Encode, Decode, HasType, NoUnknown, Fits;
    EncodeElementsOkIff(t, vs);
    if vs == [] {
      assert [] + rest == rest;
    } else {
      var tail := EncodeElements(t, vs[1..]).value;
      assert EncodeElements(t, vs).value + rest == Encode(t, vs[0]).value + (tail + rest);
      RoundTrip(t, vs[0], tail + rest);
      ElementsRoundTrip(t, vs[1..], rest);
      assert [vs[0]] + vs[1..] == vs;
    }
  }

  lemma {:induction false} FieldsRoundTrip(ts: seq<Type>, vs: seq<Value>, rest: seq<byte>)
    requires HaveTypes(ts, vs)
    requires AllKnown(vs) && AllFit(vs)
    ensures EncodeFields(ts, vs).Ok?
    ensures DecodeFields(ts, EncodeFields(ts, vs).value + rest) == Ok((vs, rest))
    decreases vs, 1
  {
    hide Encode, Decode, HasType, NoUnknown, Fits;
    EncodeFieldsOkIff(ts, vs);
    if vs == [] {
      assert [] + rest == rest;
    } else {
      var tail := EncodeFields(ts[1..], vs[1..]).value;
      assert EncodeFields(ts, vs).value + rest == Encode(ts[0], vs[0]).value + (tail + rest);
      RoundTrip(ts[0], vs[0], tail + rest);
      FieldsRoundTrip(ts[1..], vs[1..], rest);
      assert [vs[0]] + vs[1..] == vs;
    }
  }

  // ---------------------------------------------------------------- decoded values

  /** `shorter` is what is left of `s` after its first bytes have been read. */
  predicate IsRest(shorter: seq<byte>, s: seq<byte>) {
    |shorter| <= |s| && shorter == s[|s| - |shorter|..]
  }

  lemma RestOfRest(a: seq<byte>, b: seq<byte>, c: seq<byte>)
    requires IsRest(a, b) && IsRest(b, c)
    ensures IsRest(a, c)
  {
    var k, m := |c| - |b|, |b| - |a|;
    assert c[k..][m..] == c[k + m..];
  }

  /**
    Whatever was decoded is well typed, can be encoded again, and re-encoding takes no more bytes than decoding
    consumed: this is what lets the proxy forward every packet it understood.
   */
  lemma {:induction false} DecodedReencodes(t: Type, s: seq<byte>)
    requires Decode(t, s).Ok?
    ensures var (v, rest) := Decode(t, s).value;
            && HasType(t, v) && NoUnknown(v) && Fits(v)
            && IsRest(rest, s)
            && Encode(t, v).Ok? && |Encode(t, v).value| <= |s| - |rest|
    decreases t, 0, 0
  {
    hide Decode, Encode, HasType, NoUnknown, Fits, IsRest;
    match t
    case TBool => ScalarReencodes(t, s);
    case TInt(_, _) => ScalarReencodes(t, s);
    case TFloat(_) => ScalarReencodes(t, s);
    case TEnum(_) => ScalarReencodes(t, s);
    case TString => StringReencodes(s);
    case TVec(element) => VecReencodes(element, s);
    case TOption(content) => OptionReencodes(content, s);
    case TStruct(fields) => StructReencodes(fields, s);
  }

  lemma ScalarReencodes(t: Type, s: seq<byte>)
    requires t.TBool? || t.TInt? || t.TFloat? || t.TEnum?
    requires Decode(t, s).Ok?
    ensures var (v, rest) := Decode(t, s).value;
            && HasType(t, v) && NoUnknown(v) && Fits(v)
            && IsRest(rest, s)
            && Encode(t, v).Ok? && |Encode(t, v).value| <= |s| - |rest|
  {
    hide ReadWord, ReadBool, IsRest, BigEndian;
    match t
    case TBool => ReadBoolRest(s);
    case TInt(width, _) => ReadWordRest(width, s);
    case TFloat(width) => ReadWordRest(width, s);
    case TEnum(_) => ReadWordRest(4, s);
  }

  lemma StringReencodes(s: seq<byte>)
    requires Decode(TString, s).Ok?
    ensures var (v, rest) := Decode(TString, s).value;
            && HasType(TString, v) && NoUnknown(v) && Fits(v)
            && IsRest(rest, s)
            && Encode(TString, v).Ok? && |Encode(TString, v).value| <= |s| - |rest|
  {
    hide IsRest, DecodeText, EncodeLength, Utf8.IsText;
    TextReencodes(s);
  }

  lemma {:induction false} VecReencodes(t: Type, s: seq<byte>)
    requires Decode(TVec(t), s).Ok?
    ensures var (v, rest) := Decode(TVec(t), s).value;
            && HasType(TVec(t), v) && NoUnknown(v) && Fits(v)
            && IsRest(rest, s)
            && Encode(TVec(t), v).Ok? && |Encode(TVec(t), v).value| <= |s| - |rest|
    decreases t, 2, 0
  {
    hide ReadWord, IsRest, EncodeLength;
    var (size, after) := ReadWord(4, s).value;
    ReadWordRest(4, s);
    ElementsReencode(t, size, after);
    RestOfRest(Decode(TVec(t), s).value.1, after, s);
  }

  lemma {:induction false} OptionReencodes(t: Type, s: seq<byte>)
    requires Decode(TOption(t), s).Ok?
    ensures var (v, rest) := Decode(TOption(t), s).value;
            && HasType(TOption(t), v) && NoUnknown(v) && Fits(v)
            && IsRest(rest, s)
            && Encode(TOption(t), v).Ok? && |Encode(TOption(t), v).value| <= |s| - |rest|
    decreases t, 1, 0
  {
    hide ReadBool, IsRest;
    var (empty, after) := ReadBool(s).value;
    ReadBoolRest(s);
    if !empty {
      DecodedReencodes(t, after);
      RestOfRest(Decode(TOption(t), s).value.1, after, s);
    }
  }

  lemma {:induction false} StructReencodes(ts: seq<Type>, s: seq<byte>)
    requires Decode(TStruct(ts), s).Ok?
    ensures var (v, rest) := Decode(TStruct(ts), s).value;
            && HasType(TStruct(ts), v) && NoUnknown(v) && Fits(v)
            && IsRest(rest, s)
            && Encode(TStruct(ts), v).Ok? && |Encode(TStruct(ts), v).value| <= |s| - |rest|
    decreases ts, 1, 0
  {
    hide IsRest;
    FieldsReencode(ts, s);
  }

  lemma ReadWordRest(width: nat, s: seq<byte>)
    requires ReadWord(width, s).Ok?
    ensures IsRest(ReadWord(width, s).value.1, s) && |ReadWord(width, s).value.1| == |s| - width
    ensures width == 4 ==> ReadWord(width, s).value.0 < U32_LIMIT == Pow256(4)
  {
    assert Pow256(4) == U32_LIMIT;
    ReadExactRest(width, s);
  }

  lemma ReadBoolRest(s: seq<byte>)
    requires ReadBool(s).Ok?
    ensures IsRest(ReadBool(s).value.1, s) && |ReadBool(s).value.1| == |s| - 1
  {
    ReadExactRest(1, s);
  }

  lemma ReadExactRest(n: nat, s: seq<byte>)
    requires n <= |s|
    ensures IsRest(s[n..], s)
  {
  }

  lemma TextReencodes(s: seq<byte>)
    requires DecodeText(s).Ok?
    ensures var (text, rest) := DecodeText(s).value;
            && Utf8.IsText(text) && |text| < U32_LIMIT && IsRest(rest, s)
            && (if text == [] then |s| - |rest| == 1 || |s| - |rest| == 5 else |s| - |rest| == 5 + |text|)
  {
    var (text, rest) := DecodeText(s).value;
    var (empty, afterFlag) := ReadBool(s).value;
    ReadExactRest(1, s);
    if empty {
      EmptyIsText();
    } else {
      var (length, afterLength) := ReadWord(4, afterFlag).value;
      assert Pow256(4) == U32_LIMIT;
      ReadExactRest(4, afterFlag);
      ReadExactRest(length, afterLength);
      RestOfRest(afterLength, afterFlag, s);
      RestOfRest(rest, afterLength, s);
    }
  }

  lemma EmptyIsText()
    ensures Utf8.IsText([])
  {
  }

  lemma {:induction false} ElementsReencode(t: Type, n: nat, s: seq<byte>)
    requires DecodeElements(t, n, s).Ok?
    ensures var (vs, rest) := DecodeElements(t, n, s).value;
            && |vs| == n && (forall v :: v in vs ==> HasType(t, v)) && AllKnown(vs) && AllFit(vs)
            && IsRest(rest, s)
            && EncodeElements(t, vs).Ok? && |EncodeElements(t, vs).value| <= |s| - |rest|
    decreases t, 1, n
  {
    hide Encode, Decode, HasType, NoUnknown, Fits;
    if n > 0 {
      var (v, after) := Decode(t, s).value;
      var (vs, rest) := DecodeElements(t, n - 1, after).value;
      DecodedReencodes(t, s);
      ElementsReencode(t, n - 1, after);
      RestOfRest(rest, after, s);
      assert ([v] + vs)[1..] == vs;
    }
  }

  lemma {:induction false} FieldsReencode(ts: seq<Type>, s: seq<byte>)
    requires DecodeFields(ts, s).Ok?
    ensures var (vs, rest) := DecodeFields(ts, s).value;
            && HaveTypes(ts, vs) && AllKnown(vs) && AllFit(vs)
            && IsRest(rest, s)
            && EncodeFields(ts, vs).Ok? && |EncodeFields(ts, vs).value| <= |s| - |rest|
    decreases ts, 0, 0
  {
    hide Encode, Decode, HasType, NoUnknown, Fits;
    if ts != [] {
      var (v, after) := Decode(ts[0], s).value;
      var (vs, rest) := DecodeFields(ts[1..], after).value;
      DecodedReencodes(ts[0], s);
      FieldsReencode(ts[1..], after);
      RestOfRest(rest, after, s);
      assert ([v] + vs)[1..] == vs;
    }
  }

  // ---------------------------------------------------------------- decoding is local

  lemma ReadsAreLocal(n: nat, s: seq<byte>, more: seq<byte>)
    requires n <= |s|
    ensures ReadExact(n, s + more) == Ok((s[..n], s[n..] + more))
  {
    assert (s + more)[..n] == s[..n] && (s + more)[n..] == s[n..] + more;
  }

  lemma TextIsLocal(s: seq<byte>, more: seq<byte>)
    requires DecodeText(s).Ok?
    ensures DecodeText(s + more) == Ok((DecodeText(s).value.0, DecodeText(s).value.1 + more))
  {
    hide ReadExact, Utf8.IsText;
    ReadsOk(1, s);
    ReadsAreLocal(1, s, more);
    if s[0] == 0 {
      ReadsOk(4, s[1..]);
      ReadsAreLocal(4, s[1..], more);
      var length := FromBigEndian(s[1..][..4]);
      ReadsOk(length, s[1..][4..]);
      ReadsAreLocal(length, s[1..][4..], more);
    }
  }

  lemma ReadsOk(n: nat, s: seq<byte>)
    ensures ReadExact(n, s).Ok? <==> n <= |s|
    ensures n <= |s| ==> ReadExact(n, s) == Ok((s[..n], s[n..]))
  {
  }

  /** Bytes behind a value change nothing about it: a decoder never looks at what it leaves over. */
  lemma {:induction false} DecodeIsLocal(t: Type, s: seq<byte>, more: seq<byte>)
    requires Decode(t, s).Ok?
    ensures Decode(t, s + more) == Ok((Decode(t, s).value.0, Decode(t, s).value.1 + more))
    decreases t, 0, 0
  {
    hide ReadExact, DecodeText;
    match t
    case TBool =>
      ReadsOk(1, s);
      ReadsAreLocal(1, s, more);
    case TInt(width, _) =>
      ReadsOk(width, s);
      ReadsAreLocal(width, s, more);
    case TFloat(width) =>
      ReadsOk(width, s);
      ReadsAreLocal(width, s, more);
    case TString => TextIsLocal(s, more);
    case TVec(element) =>
      ReadsOk(4, s);
      ReadsAreLocal(4, s, more);
      ElementsAreLocal(element, FromBigEndian(s[..4]), s[4..], more);
    case TOption(content) =>
      ReadsOk(1, s);
      ReadsAreLocal(1, s, more);
      if s[0] == 0 {
        DecodeIsLocal(content, s[1..], more);
      }
    case TEnum(_) =>
      ReadsOk(4, s);
      ReadsAreLocal(4, s, more);
    case TStruct(fields) => FieldsAreLocal(fields, s, more);
  }

  lemma {:induction false} ElementsAreLocal(t: Type, n: nat, s: seq<byte>, more: seq<byte>)
    requires DecodeElements(t, n, s).Ok?
    ensures DecodeElements(t, n, s + more) == Ok((DecodeElements(t, n, s).value.0, DecodeElements(t, n, s).value.1 + more))
    decreases t, 1, n
  {
    hide Encode, Decode, HasType, NoUnknown, Fits;
    if n > 0 {
      DecodeIsLocal(t, s, more);
      ElementsAreLocal(t, n - 1, Decode(t, s).value.1, more);
    }
  }

  lemma {:induction false} FieldsAreLocal(ts: seq<Type>, s: seq<byte>, more: seq<byte>)
    requires DecodeFields(ts, s).Ok?
    ensures DecodeFields(ts, s + more) == Ok((DecodeFields(ts, s).value.0, DecodeFields(ts, s).value.1 + more))
    decreases ts, 0, 0
  {
    hide Encode, Decode, HasType, NoUnknown, Fits;
    if ts != [] {
      DecodeIsLocal(ts[0], s, more);
      FieldsAreLocal(ts[1..], Decode(ts[0], s).value.1, more);
    }
  }

  // ---------------------------------------------------------------- exact conditions

  /** An encodable value survives the trip exactly when all its lengths fit in 32 bits. */
  lemma RoundTripIff(t: Type, v: Value, rest: seq<byte>)
    requires HasType(t, v) && NoUnknown(v)
    ensures Encode(t, v).Ok?
    ensures Decode(t, Encode(t, v).value + rest) == Ok((v, rest)) <==> Fits(v)
  {
    EncodeOkIff(t, v);
    var s := Encode(t, v).value + rest;
    if Fits(v) {
      RoundTrip(t, v, rest);
    } else if Decode(t, s).Ok? {
      DecodedReencodes(t, s);
    }
  }

  /** The same for the field list of a packet. */
  lemma FieldsRoundTripIff(ts: seq<Type>, vs: seq<Value>, rest: seq<byte>)
    requires HaveTypes(ts, vs) && AllKnown(vs)
    ensures EncodeFields(ts, vs).Ok?
    ensures DecodeFields(ts, EncodeFields(ts, vs).value + rest) == Ok((vs, rest)) <==> AllFit(vs)
  {
    EncodeFieldsOkIff(ts, vs);
    var s := EncodeFields(ts, vs).value + rest;
    if AllFit(vs) {
      FieldsRoundTrip(ts, vs, rest);
    } else if DecodeFields(ts, s).Ok? {
      FieldsReencode(ts, s);
    }
  }

  /** Encodings of one type are injective and prefix-free. */
  lemma PrefixFree(t: Type, v: Value, w: Value, more: seq<byte>)
    requires HasType(t, v) && NoUnknown(v) && Fits(v)
    requires HasType(t, w) && NoUnknown(w) && Fits(w)
    requires Encode(t, v).Ok? && Encode(t, w) == Ok(Encode(t, v).value + more)
    ensures v == w && more == []
  {
    RoundTrip(t, v, more);
    RoundTrip(t, w, []);
    assert Encode(t, w).value + [] == Encode(t, w).value;
  }

  /** One pass through decode and encode reaches a normal form: decoding it again gives the same value. */
  lemma ReencodeIsNormalForm(t: Type, s: seq<byte>, more: seq<byte>)
    requires Decode(t, s).Ok?
    ensures var v := Decode(t, s).value.0;
            HasType(t, v) && Encode(t, v).Ok? && Decode(t, Encode(t, v).value + more) == Ok((v, more))
  {
    DecodedReencodes(t, s);
    RoundTrip(t, Decode(t, s).value.0, more);
  }

  lemma FieldsOfOne(t: Type, v: Value)
    requires HasType(t, v)
    ensures HaveTypes([t], [v]) && EncodeFields([t], [v]) == Encode(t, v)
  {
    assert [t][1..] == [] && [v][1..] == [];
    if Encode(t, v).Ok? {
      assert Encode(t, v).value + [] == Encode(t, v).value;
    }
  }
}
