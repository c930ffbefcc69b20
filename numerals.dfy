/** Digit strings: reading a run of digits in a radix, and writing a natural
    number in decimal, as `parseInt`, `Number` and `String` do. */
module Numerals {

  /** The value of `c` as a digit in any radix up to 36; 36 for a non-digit. */
  function CharDigit(c: char): (d: nat)
    ensures d <= 36
  {
    if '0' <= c <= '9' then c as int - '0' as int
    else if 'a' <= c <= 'z' then c as int - 'a' as int + 10
    else if 'A' <= c <= 'Z' then c as int - 'A' as int + 10
    else 36
  }

  /** How many characters at the front of `s` are digits of `radix`. */
  function DigitRun(s: string, radix: nat): (n: nat)
    ensures n <= |s|
    ensures forall i :: 0 <= i < n ==> CharDigit(s[i]) < radix
    ensures n < |s| ==> CharDigit(s[n]) >= radix
  {
    if s != [] && CharDigit(s[0]) < radix then 1 + DigitRun(s[1..], radix) else 0
  }

  /** The number the digits `d` spell in `radix`, most significant first. */
  function Value(d: string, radix: nat): nat {
    if d == [] then 0 else Value(d[..|d| - 1], radix) * radix + CharDigit(d[|d| - 1])
  }

  function DecimalDigit(d: nat): (c: char)
    requires d < 10
    ensures CharDigit(c) == d
  {
    ('0' as int + d) as char
  }

  /** `String(n)` for a natural number: its decimal digits, no leading zero. */
  function Decimal(n: nat): (s: string)
    ensures s != [] && forall i :: 0 <= i < |s| ==> '0' <= s[i] <= '9'
    ensures |s| >= 2 ==> s[0] != '0'
    ensures n >= 1 ==> s[0] != '0'
  {
    if n < 10 then [DecimalDigit(n)] else Decimal(n / 10) + [DecimalDigit(n % 10)]
  }

  lemma {:induction false} ValueOfDecimal(n: nat)
    ensures Value(Decimal(n), 10) == n
  {
    if n >= 10 {
      var d := Decimal(n);
      assert d[..|d| - 1] == Decimal(n / 10);
      ValueOfDecimal(n / 10);
    }
  }

  lemma {:induction false} DigitRunOfDigits(s: string, radix: nat)
    requires forall i :: 0 <= i < |s| ==> CharDigit(s[i]) < radix
    ensures DigitRun(s, radix) == |s|
  {
    if s != [] {
      DigitRunOfDigits(s[1..], radix);
    }
  }
}
