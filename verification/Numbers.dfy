/** Numbers that several components share: bounds, bytes and hexadecimal digits. */
module Numbers {

  const USIZE_MAX: nat := 0xFFFF_FFFF_FFFF_FFFF

  type Byte = b: int | 0 <= b < 256

  const NEWLINE: Byte := 10

  function Min(a: nat, b: nat): nat {
    if a < b then a else b
  }

  function Max(a: nat, b: nat): nat {
    if a < b then b else a
  }

  predicate IsHexDigit(c: char) {
    '0' <= c <= '9' || 'a' <= c <= 'f' || 'A' <= c <= 'F'
  }

  function HexDigit(c: char): nat
    requires IsHexDigit(c)
  {
    if '0' <= c <= '9' then c as nat - '0' as nat
    else if 'a' <= c <= 'f' then c as nat - 'a' as nat + 10
    else c as nat - 'A' as nat + 10
  }

  /** The digit for a number, in lower case. */
  function HexChar(n: nat): char
    requires n < 16
  {
    if n < 10 then ('0' as nat + n) as char else ('a' as nat + (n - 10)) as char
  }

  // ---------------------------------------------------------------- digits in either case

  function DigitChar(digit: nat, upper: bool): char
    requires digit < 16
  {
    if upper then "0123456789ABCDEF"[digit] else "0123456789abcdef"[digit]
  }

  /** A number in as many digits as `upper` has entries, each of which says whether a letter is a capital. */
  function HexText(number: nat, upper: seq<bool>): string {
    if upper == [] then ""
    else HexText(number / 16, upper[..|upper| - 1]) + [DigitChar(number % 16, upper[|upper| - 1])]
  }

  lemma {:induction false} DigitReads(digit: nat, upper: bool)
    requires digit < 16
    ensures IsHexDigit(DigitChar(digit, upper)) && HexDigit(DigitChar(digit, upper)) == digit
  {
  }

  lemma {:induction false} DigitSpelled(c: char) returns (upper: bool)
    requires IsHexDigit(c)
    ensures HexDigit(c) < 16 && DigitChar(HexDigit(c), upper) == c
  {
    upper := c < 'a';
  }
}
