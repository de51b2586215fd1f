/** When decoding and encoding again gives back the very bytes that were read. */
module CanonicalBytes {
  import opened Wrappers
  import opened Bytes
  import opened Codec
  import opened CodecLaws
  import Utf8

  /** A flag as the encoder writes it. */
  predicate PlainFlag(s: seq<byte>) {
    s != [] && s[0] <= 1
  }

  /** As far as `t` is read from it, the input has no flag above 1 and no empty string in its long form. */
  predicate Canonical(t: Type, s: seq<byte>)
    decreases t, 0, 0
  {
    match t
    case TBool => PlainFlag(s)
    case TString => PlainFlag(s) && (s[0] == 0 ==> ReadWord(4, s[1..]).Ok? && ReadWord(4, s[1..]).value.0 > 0)
    case TVec(element) =>
      ReadWord(4, s).Ok? && AllCanonical(element, ReadWord(4, s).value.0, ReadWord(4, s).value.1)
    case TOption(content) => PlainFlag(s) && (s[0] == 0 ==> Canonical(content, s[1..]))
    case TStruct(fields) => FieldsCanonical(fields, s)
    case _ => true
  }

  predicate AllCanonical(t: Type, n: nat, s: seq<byte>)
    decreases t, 1, n
  {
    n > 0 ==> Canonical(t, s) && Decode(t, s).Ok? && AllCanonical(t, n - 1, Decode(t, s).value.1)
  }

  predicate FieldsCanonical(ts: seq<Type>, s: seq<byte>)
    decreases ts, 0, 0
  {
    ts != [] ==> Canonical(ts[0], s) && Decode(ts[0], s).Ok? && FieldsCanonical(ts[1..], Decode(ts[0], s).value.1)
  }

  /** Two parts that do not grow give back the whole only if each gives back its own bytes. */
  lemma PartsRestore(s: seq<byte>, head: seq<byte>, after: seq<byte>, tail: seq<byte>, rest: seq<byte>)
    requires IsRest(after, s) && IsRest(rest, after)
    requires |head| <= |s| - |after| && |tail| <= |after| - |rest|
    ensures head + tail + rest == s <==> head + after == s && tail + rest == after
  {
    assert head + tail + rest == head + (tail + rest);
    if head + tail + rest == s {
      assert |head| == |s| - |after|;
      assert s[|head|..] == tail + rest;
    }
  }

  lemma WordRestores(width: nat, signed: bool, s: seq<byte>)
    requires |s| >= width
    ensures var i := OfWord(width, signed, FromBigEndian(s[..width]));
            BigEndian(ToWord(width, signed, i), width) + s[width..] == s
  {
    BigEndianInverts(s[..width]);
    assert s[..width] + s[width..] == s;
  }

  lemma FlagRestores(s: seq<byte>)
    requires s != []
    ensures EncodeBool(s[0] > 0) + s[1..] == s <==> PlainFlag(s)
  {
    assert s == [s[0]] + s[1..];
    assert (EncodeBool(s[0] > 0) + s[1..])[0] == EncodeBool(s[0] > 0)[0];
  }

  lemma LengthRestores(s: seq<byte>)
    requires |s| >= 4
    ensures EncodeLength(FromBigEndian(s[..4])) + s[4..] == s
  {
    assert Pow256(4) == U32_LIMIT;
    BigEndianInverts(s[..4]);
    assert s[..4] + s[4..] == s;
  }

  lemma HeadRestores(flag: byte, body: seq<byte>, rest: seq<byte>, s: seq<byte>)
    requires s != []
    ensures [flag] + body + rest == s <==> s[0] == flag && body + rest == s[1..]
  {
    assert [flag] + body + rest == [flag] + (body + rest);
    assert ([flag] + (body + rest))[1..] == body + rest;
    assert s == [s[0]] + s[1..];
  }

  /** What a decoded text looks like in the input, after its flag. */
  lemma LongText(s: seq<byte>)
    requires DecodeText(s).Ok? && s[0] == 0
    ensures var (text, rest) := DecodeText(s).value;
            && |s| >= 5 && FromBigEndian(s[1..][..4]) == |text| && s[1..][4..] == text + rest
            && ReadWord(4, s[1..]) == Ok((|text|, s[1..][4..]))
  {
  }

  lemma LongTextRestores(s: seq<byte>, text: seq<byte>, rest: seq<byte>)
    requires |s| >= 5 && s[0] == 0 && FromBigEndian(s[1..][..4]) == |text| && s[1..][4..] == text + rest
    ensures [0] + EncodeLength(|text|) + text + rest == s
    ensures [1] + rest != s
  {
    hide EncodeLength, FromBigEndian;
    LengthRestores(s[1..]);
    assert [0] + EncodeLength(|text|) + text + rest == [0] + (EncodeLength(|text|) + (text + rest));
    assert s == [s[0]] + s[1..];
    assert ([1] + rest)[0] == 1;
  }

  lemma TextRestoresIff(s: seq<byte>)
    requires Decode(TString, s).Ok?
    ensures var (v, rest) := Decode(TString, s).value;
            HasType(TString, v) && (Encode(TString, v).value + rest == s <==> Canonical(TString, s))
  {
    hide EncodeLength, FromBigEndian, Utf8.IsText;
    TextReencodes(s);
    FlagRestores(s);
    var (text, rest) := DecodeText(s).value;
    if s[0] == 0 {
      hide DecodeText, ReadWord;
      LongText(s);
      LongTextRestores(s, text, rest);
    }
  }

  /** Re-encoding a decoded value restores exactly the bytes that were read if and only if they were canonical. */
  lemma {:induction false} ReencodeRestoresIff(t: Type, s: seq<byte>)
    requires Decode(t, s).Ok?
    ensures var (v, rest) := Decode(t, s).value;
            && HasType(t, v) && Encode(t, v).Ok?
            && (Encode(t, v).value + rest == s <==> Canonical(t, s))
    decreases t, 0, 0
  {
    hide ReadWord, DecodeText, EncodeLength, PlainFlag;
    DecodedReencodes(t, s);
    match t
    case TBool => FlagRestoresRead(s);
    case TInt(width, signed) =>
      ReadsWord(width, s);
      WordRestores(width, signed, s);
    case TFloat(width) =>
      ReadsWord(width, s);
      WordRestores(width, false, s);
    case TString => TextRestoresIff(s);
    case TVec(element) => VecRestoresIff(element, s);
    case TOption(content) => OptionRestoresIff(content, s);
    case TEnum(_) =>
      ReadsWord(4, s);
      WordRestores(4, true, s);
    case TStruct(fields) => FieldsRestoreIff(fields, s);
  }

  lemma ReadsWord(width: nat, s: seq<byte>)
    ensures ReadWord(width, s).Ok? <==> |s| >= width
    ensures |s| >= width ==> ReadWord(width, s) == Ok((FromBigEndian(s[..width]), s[width..]))
  {
  }

  lemma FlagRestoresRead(s: seq<byte>)
    requires ReadBool(s).Ok?
    ensures s != [] && ReadBool(s) == Ok((s[0] > 0, s[1..]))
    ensures EncodeBool(s[0] > 0) + s[1..] == s <==> PlainFlag(s)
  {
    FlagRestores(s);
  }

  lemma {:induction false} VecRestoresIff(t: Type, s: seq<byte>)
    requires Decode(TVec(t), s).Ok?
    ensures var (v, rest) := Decode(TVec(t), s).value;
            && HasType(TVec(t), v) && Encode(TVec(t), v).Ok?
            && (Encode(TVec(t), v).value + rest == s <==> Canonical(TVec(t), s))
    decreases t, 1, 1, 0
  {
    hide EncodeLength;
    DecodedReencodes(TVec(t), s);
    ReadsWord(4, s);
    var (v, rest) := Decode(TVec(t), s).value;
    var n := FromBigEndian(s[..4]);
    ElementsReencode(t, n, s[4..]);
    ElementsRestoreIff(t, n, s[4..]);
    LengthRestores(s);
    var length, body := EncodeLength(n), EncodeElements(t, v.elements).value;
    assert length + body + rest == length + (body + rest);
    assert (length + (body + rest))[4..] == body + rest;
  }

  lemma {:induction false} OptionRestoresIff(t: Type, s: seq<byte>)
    requires Decode(TOption(t), s).Ok?
    ensures var (v, rest) := Decode(TOption(t), s).value;
            && HasType(TOption(t), v) && Encode(TOption(t), v).Ok?
            && (Encode(TOption(t), v).value + rest == s <==> Canonical(TOption(t), s))
    decreases t, 1, 0, 0
  {
    hide ReadBool, DecodeText;
    DecodedReencodes(TOption(t), s);
    FlagRestoresRead(s);
    var (v, rest) := Decode(TOption(t), s).value;
    if s[0] == 0 {
      ReencodeRestoresIff(t, s[1..]);
      var body := Encode(t, v.content).value;
      HeadRestores(0, body, rest, s);
    }
  }

  lemma {:induction false} ElementsRestoreIff(t: Type, n: nat, s: seq<byte>)
    requires DecodeElements(t, n, s).Ok?
    ensures var (vs, rest) := DecodeElements(t, n, s).value;
            && (forall v :: v in vs ==> HasType(t, v)) && EncodeElements(t, vs).Ok?
            && (EncodeElements(t, vs).value + rest == s <==> AllCanonical(t, n, s))
    decreases t, 1, 0, n
  {
    hide Encode, Decode, HasType, Canonical, NoUnknown, Fits;
    ElementsReencode(t, n, s);
    if n > 0 {
      var (v, after) := Decode(t, s).value;
      var (vs, rest) := DecodeElements(t, n - 1, after).value;
      DecodedReencodes(t, s);
      ElementsReencode(t, n - 1, after);
      ReencodeRestoresIff(t, s);
      ElementsRestoreIff(t, n - 1, after);
      assert ([v] + vs)[1..] == vs;
      PartsRestore(s, Encode(t, v).value, after, EncodeElements(t, vs).value, rest);
    }
  }

  lemma {:induction false} FieldsRestoreIff(ts: seq<Type>, s: seq<byte>)
    requires DecodeFields(ts, s).Ok?
    ensures var (vs, rest) := DecodeFields(ts, s).value;
            && HaveTypes(ts, vs) && EncodeFields(ts, vs).Ok?
            && (EncodeFields(ts, vs).value + rest == s <==> FieldsCanonical(ts, s))
    decreases ts, 0, 0
  {
    hide Encode, Decode, HasType, Canonical, NoUnknown, Fits;
    FieldsReencode(ts, s);
    if ts != [] {
      var (v, after) := Decode(ts[0], s).value;
      var (vs, rest) := DecodeFields(ts[1..], after).value;
      DecodedReencodes(ts[0], s);
      FieldsReencode(ts[1..], after);
      ReencodeRestoresIff(ts[0], s);
      FieldsRestoreIff(ts[1..], after);
      assert ([v] + vs)[1..] == vs;
      PartsRestore(s, Encode(ts[0], v).value, after, EncodeFields(ts[1..], vs).value, rest);
    }
  }
}
