/** Numbers as text: printing in base ten or eight, and reading decimal text as the standard library does. */
module Numerals {
  import opened Wrappers

  const U64_LIMIT: nat := 0x1_0000_0000_0000_0000

  predicate IsBase(base: nat) {
    base == 8 || base == 10
  }

  function DigitChar(d: nat): char
    requires d < 10
  {
    '0' + d as char
  }

  /** The value of a digit, if the character is one. */
  function DigitValue(c: char): Option<nat> {
    if '0' <= c <= '9' then Some(c as int - '0' as int) else None
  }

  function Print(n: nat, base: nat): (s: string)
    requires IsBase(base)
    ensures s != []
    ensures forall i :: 0 <= i < |s| ==> '0' <= s[i] <= '9'
  {
    if n < base then [DigitChar(n)] else Print(n / base, base) + [DigitChar(n % base)]
  }

  function ValueOf(s: string, base: nat): Option<nat> {
    if s == [] then Some(0)
    else
      match (ValueOf(s[..|s| - 1], base), DigitValue(s[|s| - 1]))
      case (Some(high), Some(low)) => Some(base * high + low)
      case _ => None
  }

  /** `parse::<u64>`: an optional plus sign, at least one digit, no overflow. */
  function ParseU64(s: string): (r: Option<nat>)
    ensures r.Some? ==> r.value < U64_LIMIT
  {
    var digits := if s != [] && s[0] == '+' then s[1..] else s;
    if digits == [] then None
    else
      match ValueOf(digits, 10)
      case Some(n) => if n < U64_LIMIT then Some(n) else None
      case None => None
  }

  lemma {:induction false} ValueOfPrint(n: nat, base: nat)
    requires IsBase(base)
    ensures ValueOf(Print(n, base), base) == Some(n)
  {
    var s := Print(n, base);
    if n < base {
      assert s[..0] == [];
    } else {
      ValueOfPrint(n / base, base);
      assert s[..|s| - 1] == Print(n / base, base);
    }
  }

  lemma PrintIsInjective(m: nat, n: nat, base: nat)
    requires IsBase(base) && Print(m, base) == Print(n, base)
    ensures m == n
  {
    ValueOfPrint(m, base);
    ValueOfPrint(n, base);
  }

  lemma ParsePrinted(n: nat)
    requires n < U64_LIMIT
    ensures ParseU64(Print(n, 10)) == Some(n)
  {
    ValueOfPrint(n, 10);
  }

  /** A printed number is read back, with or without a plus sign, exactly if it fits 64 bits. */
  lemma ParsePrintedIff(n: nat)
    ensures ParseU64(Print(n, 10)) == if n < U64_LIMIT then Some(n) else None
    ensures ParseU64("+" + Print(n, 10)) == if n < U64_LIMIT then Some(n) else None
  {
    ValueOfPrint(n, 10);
    assert ("+" + Print(n, 10))[1..] == Print(n, 10);
  }

  /** Nothing is no number, and neither is a text with anything but digits behind its sign. */
  lemma {:induction false} OnlyDigitsHaveValue(s: string, base: nat)
    ensures ValueOf(s, base).Some? <==> forall i :: 0 <= i < |s| ==> '0' <= s[i] <= '9'
  {
    if s != [] {
      OnlyDigitsHaveValue(s[..|s| - 1], base);
    }
  }

  lemma ParseNeedsDigits(s: string)
    requires ParseU64(s).Some?
    ensures var digits := if s != [] && s[0] == '+' then s[1..] else s;
            digits != [] && forall i :: 0 <= i < |digits| ==> '0' <= digits[i] <= '9'
  {
    OnlyDigitsHaveValue(if s != [] && s[0] == '+' then s[1..] else s, 10);
  }
}
