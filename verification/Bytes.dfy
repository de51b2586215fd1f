/** Octets, their exclusive or, and big-endian integers as the byteorder crate reads and writes them. */
module Bytes {
  newtype byte = n: int | 0 <= n < 256

  // ---------------------------------------------------------------- exclusive or

  /** Exclusive or of the binary digits of two numbers. */
  function XorBits(a: nat, b: nat): (r: nat)
    decreases a + b
  {
    if a == 0 && b == 0 then 0
    else 2 * XorBits(a / 2, b / 2) + (if a % 2 == b % 2 then 0 else 1)
  }

  function Bit(n: nat, i: nat): bool {
    if i == 0 then n % 2 == 1 else Bit(n / 2, i - 1)
  }

  /** Every digit of the result is set exactly when the digits of the arguments differ. */
  lemma {:induction false} XorBitsIsDigitwise(a: nat, b: nat, i: nat)
    ensures Bit(XorBits(a, b), i) <==> Bit(a, i) != Bit(b, i)
  {
    if a == 0 && b == 0 {
      ZeroHasNoDigits(i);
    } else if i > 0 {
      XorBitsIsDigitwise(a / 2, b / 2, i - 1);
    }
  }

  lemma {:induction false} ZeroHasNoDigits(i: nat)
    ensures !Bit(0, i)
  {
    if i > 0 {
      ZeroHasNoDigits(i - 1);
    }
  }

  function Pow2(n: nat): (p: nat)
    ensures p > 0
  {
    if n == 0 then 1 else 2 * Pow2(n - 1)
  }

  lemma {:induction false} XorBitsBound(a: nat, b: nat, n: nat)
    requires a < Pow2(n) && b < Pow2(n)
    ensures XorBits(a, b) < Pow2(n)
  {
    if n > 0 {
      XorBitsBound(a / 2, b / 2, n - 1);
    }
  }

  lemma {:induction false} XorBitsTwice(a: nat, b: nat)
    ensures XorBits(XorBits(a, b), b) == a
    decreases a + b
  {
    if a != 0 || b != 0 {
      XorBitsTwice(a / 2, b / 2);
      var x := XorBits(a, b);
      assert x / 2 == XorBits(a / 2, b / 2);
    }
  }

  lemma {:induction false} XorBitsAssociates(a: nat, b: nat, c: nat)
    ensures XorBits(XorBits(a, b), c) == XorBits(a, XorBits(b, c))
    decreases a + b + c
  {
    if a + b + c > 0 {
      XorBitsAssociates(a / 2, b / 2, c / 2);
      var x, y := XorBits(a, b), XorBits(b, c);
      assert x / 2 == XorBits(a / 2, b / 2) && y / 2 == XorBits(b / 2, c / 2);
    }
  }

  function Xor(a: byte, b: byte): byte {
    assert Pow2(8) == 256;
    XorBitsBound(a as nat, b as nat, 8);
    XorBits(a as nat, b as nat) as byte
  }

  lemma XorTwice(a: byte, b: byte)
    ensures Xor(Xor(a, b), b) == a
  {
    XorBitsTwice(a as nat, b as nat);
  }

  lemma {:induction false} XorBitsCommutes(a: nat, b: nat)
    ensures XorBits(a, b) == XorBits(b, a)
    decreases a + b
  {
    if a != 0 || b != 0 {
      XorBitsCommutes(a / 2, b / 2);
    }
  }

  lemma XorCommutes(a: byte, b: byte)
    ensures Xor(a, b) == Xor(b, a)
  {
    XorBitsCommutes(a as nat, b as nat);
  }

  lemma {:induction false} XorBitsZero(a: nat)
    ensures XorBits(a, 0) == a
  {
    if a != 0 {
      XorBitsZero(a / 2);
    }
  }

  lemma XorZero(a: byte)
    ensures Xor(a, 0) == a
  {
    XorBitsZero(a as nat);
  }

  lemma XorAssociates(a: byte, b: byte, c: byte)
    ensures Xor(Xor(a, b), c) == Xor(a, Xor(b, c))
  {
    XorBitsAssociates(a as nat, b as nat, c as nat);
  }

  lemma XorBelow8(a: byte, b: byte)
    requires a < 8 && b < 8
    ensures Xor(a, b) < 8
  {
    assert Pow2(3) == 8;
    XorBitsBound(a as nat, b as nat, 3);
  }

  // ---------------------------------------------------------------- words

  /** 256 to the power `width`: the number of values of a `width`-byte word. */
  function Pow256(width: nat): (n: nat)
    ensures n > 0
  {
    if width == 0 then 1 else 256 * Pow256(width - 1)
  }

  function BigEndian(n: nat, width: nat): (s: seq<byte>)
    requires n < Pow256(width)
    ensures |s| == width
  {
    if width == 0 then [] else BigEndian(n / 256, width - 1) + [(n % 256) as byte]
  }

  function FromBigEndian(s: seq<byte>): (n: nat)
    ensures n < Pow256(|s|)
  {
    if s == [] then 0 else 256 * FromBigEndian(s[..|s| - 1]) + s[|s| - 1] as nat
  }

  lemma {:induction false} FromBigEndianInverts(n: nat, width: nat)
    requires n < Pow256(width)
    ensures FromBigEndian(BigEndian(n, width)) == n
  {
    if width > 0 {
      var s := BigEndian(n, width);
      assert s[..|s| - 1] == BigEndian(n / 256, width - 1);
      FromBigEndianInverts(n / 256, width - 1);
    }
  }

  lemma BigEndianStep(high: nat, low: nat, width: nat)
    requires high < Pow256(width) && low < 256
    ensures 256 * high + low < Pow256(width + 1)
    ensures BigEndian(256 * high + low, width + 1) == BigEndian(high, width) + [low as byte]
  {
    assert (256 * high + low) / 256 == high && (256 * high + low) % 256 == low;
  }

  lemma {:induction false} BigEndianInverts(s: seq<byte>)
    ensures BigEndian(FromBigEndian(s), |s|) == s
  {
    if s != [] {
      var init, last := s[..|s| - 1], s[|s| - 1];
      BigEndianInverts(init);
      BigEndianStep(FromBigEndian(init), last as nat, |init|);
      assert s == init + [last];
    }
  }

  /** The most significant byte comes first: the front of a word weighs 256 to the number of bytes after it. */
  lemma {:induction false} BigEndianWeight(s: seq<byte>, t: seq<byte>)
    ensures FromBigEndian(s + t) == FromBigEndian(s) * Pow256(|t|) + FromBigEndian(t)
    decreases |t|
  {
    if t == [] {
      assert s + t == s;
    } else {
      var init, last := t[..|t| - 1], t[|t| - 1];
      BigEndianWeight(s, init);
      assert (s + t)[..|s + t| - 1] == s + init;
      RegroupWord(FromBigEndian(s), Pow256(|init|), FromBigEndian(init), last as nat);
    }
  }

  lemma RegroupWord(a: nat, p: nat, b: nat, c: nat)
    ensures 256 * (a * p + b) + c == a * (256 * p) + (256 * b + c)
  {
    assert a * (256 * p) == 256 * (a * p);
  }
}
