/** Numbers written in a base, as a printer would: the last digit is the remainder, the ones before it the quotient. */
module Numerals {
  import opened Arith
  import opened Digits

  /** The characters for the digits 0 to 35: '0' to '9', then 'a' to 'z' or 'A' to 'Z'. */
  predicate Spells(c: byte, digit: int) {
    || (0 <= digit < 10 && c == 0x30 + digit)
    || (10 <= digit < 36 && (c == 0x61 + (digit - 10) || c == 0x41 + (digit - 10)))
  }

  /** The digits of v in either case, with any number of leading zeros; none at all for zero. */
  predicate Writes(digits: seq<byte>, v: nat, base: nat)
    requires base >= 2
  {
    if digits == [] then v == 0 else
      DivModDefinition(v, base);
      Spells(digits[|digits| - 1], v % base) && Writes(digits[..|digits| - 1], v / base, base)
  }

  /** At least one digit, after a '-' for a negative number. */
  predicate IsNumeral(text: seq<byte>, negative: bool, v: nat, base: nat)
    requires base >= 2
  {
    if negative then |text| > 1 && text[0] == 0x2D && Writes(text[1..], v, base)
    else text != [] && Writes(text, v, base)
  }

  /** A digit or a letter of the base. */
  predicate Continues(c: byte, base: nat) {
    || 0x30 <= c < 0x30 + Min(base, 10)
    || 0x41 <= c < 0x41 + (base - 10)
    || 0x61 <= c < 0x61 + (base - 10)
  }

  /** The first n characters are a numeral that does not go on. */
  predicate Begins(s: seq<byte>, n: nat, negative: bool, v: nat, base: nat)
    requires base >= 2
  {
    n <= |s| && IsNumeral(s[..n], negative, v, base) && (n < |s| ==> !Continues(s[n], base))
  }
}
