/** Well-formed UTF-8, the condition under which bytes are accepted as a string (table 3-7 of the Unicode standard). */
module Utf8 {
  import opened Bytes

  predicate Between(b: byte, low: nat, high: nat) {
    low <= b as nat <= high
  }

  predicate Continues(s: seq<byte>, from: nat) {
    forall i :: from <= i < |s| ==> Between(s[i], 0x80, 0xBF)
  }

  /** One well-formed encoded character. */
  predicate IsCharacter(s: seq<byte>) {
    match |s|
    case 1 => Between(s[0], 0x00, 0x7F)
    case 2 => Between(s[0], 0xC2, 0xDF) && Continues(s, 1)
    case 3 =>
      && Continues(s, 2)
      && (|| (Between(s[0], 0xE0, 0xE0) && Between(s[1], 0xA0, 0xBF))
          || (Between(s[0], 0xE1, 0xEC) && Between(s[1], 0x80, 0xBF))
          || (Between(s[0], 0xED, 0xED) && Between(s[1], 0x80, 0x9F))
          || (Between(s[0], 0xEE, 0xEF) && Between(s[1], 0x80, 0xBF)))
    case 4 =>
      && Continues(s, 2)
      && (|| (Between(s[0], 0xF0, 0xF0) && Between(s[1], 0x90, 0xBF))
          || (Between(s[0], 0xF1, 0xF3) && Between(s[1], 0x80, 0xBF))
          || (Between(s[0], 0xF4, 0xF4) && Between(s[1], 0x80, 0x8F)))
    case _ => false
  }

  /** `s` is a concatenation of characters. */
  predicate IsText(s: seq<byte>)
    decreases |s|
  {
    s == [] || exists n :: 1 <= n <= |s| && IsCharacter(s[..n]) && IsText(s[n..])
  }

  /** A Unicode scalar value: any code point but the surrogates. */
  predicate IsScalar(c: nat) {
    c < 0xD800 || 0xE000 <= c < 0x11_0000
  }

  /** The shortest form: six bits in each continuation byte, the rest behind the mark of the length. */
  function EncodeScalar(c: nat): seq<byte>
    requires IsScalar(c)
  {
    if c < 0x80 then [c as byte]
    else if c < 0x800 then [(0xC0 + c / 64) as byte, (0x80 + c % 64) as byte]
    else if c < 0x1_0000 then [(0xE0 + c / 4096) as byte, (0x80 + c / 64 % 64) as byte, (0x80 + c % 64) as byte]
    else [(0xF0 + c / 262144) as byte, (0x80 + c / 4096 % 64) as byte, (0x80 + c / 64 % 64) as byte, (0x80 + c % 64) as byte]
  }

  lemma ScalarIsCharacter(c: nat)
    requires IsScalar(c)
    ensures IsCharacter(EncodeScalar(c))
  {
    if c < 0x80 {
    } else if c < 0x800 {
      ScalarInTwo(c);
    } else if c < 0x1_0000 {
      ScalarInThree(c);
    } else {
      ScalarInFour(c);
    }
  }

  lemma ScalarInTwo(c: nat)
    requires 0x80 <= c < 0x800
    ensures IsCharacter(EncodeScalar(c))
  {
  }

  lemma ScalarInThree(c: nat)
    requires IsScalar(c) && 0x800 <= c < 0x1_0000
    ensures IsCharacter(EncodeScalar(c))
  {
    TwiceSixBits(c);
    var q := c / 64;
    var h, a := q / 64, q % 64;
    assert q == 64 * h + a && 0x20 <= q < 0x400 && (q < 0x360 || 0x380 <= q);
    assert EncodeScalar(c) == [(0xE0 + h) as byte, (0x80 + a) as byte, (0x80 + c % 64) as byte];
    hide EncodeScalar;
  }

  lemma ScalarInFour(c: nat)
    requires 0x1_0000 <= c < 0x11_0000
    ensures IsCharacter(EncodeScalar(c))
  {
    TwiceSixBits(c);
    var q := c / 64 / 64;
    var h, a := q / 64, q % 64;
    assert q == 64 * h + a && 0x10 <= q < 0x110;
    assert EncodeScalar(c)
        == [(0xF0 + h) as byte, (0x80 + a) as byte, (0x80 + c / 64 % 64) as byte, (0x80 + c % 64) as byte];
    hide EncodeScalar;
  }

  /** The number that the payload bits of a character spell. */
  function ScalarOf(s: seq<byte>): nat
    requires IsCharacter(s)
  {
    match |s|
    case 1 => s[0] as nat
    case 2 => (s[0] as nat - 0xC0) * 64 + (s[1] as nat - 0x80)
    case 3 => ((s[0] as nat - 0xE0) * 64 + (s[1] as nat - 0x80)) * 64 + (s[2] as nat - 0x80)
    case _ =>
      (((s[0] as nat - 0xF0) * 64 + (s[1] as nat - 0x80)) * 64 + (s[2] as nat - 0x80)) * 64 + (s[3] as nat - 0x80)
  }

  lemma SixBits(high: nat, low: nat)
    requires low < 64
    ensures (high * 64 + low) / 64 == high && (high * 64 + low) % 64 == low
  {
  }

  lemma TwiceSixBits(n: nat)
    ensures n / 4096 == n / 64 / 64 && n / 262144 == n / 64 / 64 / 64
  {
  }

  lemma CharacterIsScalar(s: seq<byte>)
    requires IsCharacter(s)
    ensures IsScalar(ScalarOf(s)) && EncodeScalar(ScalarOf(s)) == s
  {
    match |s|
    case 1 =>
    case 2 => SixBits(s[0] as nat - 0xC0, s[1] as nat - 0x80);
    case 3 => ThreeBytes(s);
    case _ => FourBytes(s);
  }

  lemma ThreeBytes(s: seq<byte>)
    requires IsCharacter(s) && |s| == 3
    ensures IsScalar(ScalarOf(s)) && EncodeScalar(ScalarOf(s)) == s
  {
    var h, a, b := s[0] as nat - 0xE0, s[1] as nat - 0x80, s[2] as nat - 0x80;
    var n := (h * 64 + a) * 64 + b;
    SixBits(h, a);
    SixBits(h * 64 + a, b);
    TwiceSixBits(n);
    assert n / 4096 == h && n / 64 % 64 == a && n % 64 == b;
    assert 0x800 <= n < 0x1_0000;
  }

  lemma FourBytes(s: seq<byte>)
    requires IsCharacter(s) && |s| == 4
    ensures IsScalar(ScalarOf(s)) && EncodeScalar(ScalarOf(s)) == s
  {
    var h, a, b, c := s[0] as nat - 0xF0, s[1] as nat - 0x80, s[2] as nat - 0x80, s[3] as nat - 0x80;
    assert 0x10 <= h * 64 + a < 0x110 && b < 64 && c < 64;
    var n := ((h * 64 + a) * 64 + b) * 64 + c;
    assert ScalarOf(s) == n;
    FourDigits(h, a, b, c);
  }

  lemma FourDigits(h: nat, a: nat, b: nat, c: nat)
    requires a < 64 && b < 64 && c < 64 && 0x10 <= h * 64 + a < 0x110
    ensures var n := ((h * 64 + a) * 64 + b) * 64 + c;
            && 0x1_0000 <= n < 0x11_0000
            && n / 262144 == h && n / 4096 % 64 == a && n / 64 % 64 == b && n % 64 == c
  {
    SixBits(h, a);
    SixBits(h * 64 + a, b);
    SixBits((h * 64 + a) * 64 + b, c);
    TwiceSixBits(((h * 64 + a) * 64 + b) * 64 + c);
  }

  /** The accepted characters are exactly the shortest encodings of the scalar values. */
  lemma CharactersAreScalars(s: seq<byte>)
    ensures IsCharacter(s) <==> exists c: nat :: IsScalar(c) && EncodeScalar(c) == s
  {
    if IsCharacter(s) {
      CharacterIsScalar(s);
    }
    forall c: nat | IsScalar(c) && EncodeScalar(c) == s
      ensures IsCharacter(s)
    {
      ScalarIsCharacter(c);
    }
  }

  /** And a text is any sequence of them. */
  function EncodeScalars(cs: seq<nat>): seq<byte>
    requires forall c :: c in cs ==> IsScalar(c)
  {
    if cs == [] then [] else EncodeScalar(cs[0]) + EncodeScalars(cs[1..])
  }

  lemma {:induction false} ScalarsAreText(cs: seq<nat>)
    requires forall c :: c in cs ==> IsScalar(c)
    ensures IsText(EncodeScalars(cs))
  {
    hide IsCharacter, EncodeScalar;
    if cs != [] {
      ScalarsAreText(cs[1..]);
      ScalarIsCharacter(cs[0]);
      CharacterIsShort(EncodeScalar(cs[0]));
      CharacterInFront(EncodeScalar(cs[0]), EncodeScalars(cs[1..]));
    }
  }

  lemma CharacterIsShort(s: seq<byte>)
    requires IsCharacter(s)
    ensures 1 <= |s| <= 4
  {
  }

  lemma CharacterInFront(head: seq<byte>, tail: seq<byte>)
    requires head != [] && IsCharacter(head) && IsText(tail)
    ensures IsText(head + tail)
  {
    hide IsCharacter;
    var s := head + tail;
    assert s[..|head|] == head && s[|head|..] == tail;
  }

  lemma {:induction false} TextIsScalars(s: seq<byte>) returns (cs: seq<nat>)
    requires IsText(s)
    ensures forall c :: c in cs ==> IsScalar(c)
    ensures EncodeScalars(cs) == s
    decreases |s|
  {
    hide IsCharacter, EncodeScalar, ScalarOf;
    cs := [];
    if s != [] {
      var n :| 1 <= n <= |s| && IsCharacter(s[..n]) && IsText(s[n..]);
      var rest := TextIsScalars(s[n..]);
      CharacterIsScalar(s[..n]);
      cs := [ScalarOf(s[..n])] + rest;
      assert cs[1..] == rest && s == s[..n] + s[n..];
    }
  }
}
