/**
 * Python's `hex()` on a non-negative integer: "0x" followed by the
 * lower-case hexadecimal digits of the value with no leading zeros
 * (`hex(0) == "0x0"`, `hex(0x55) == "0x55"`), and the reading back of
 * such a digit string.
 */
module Hex {

  predicate IsHexDigit(c: char) {
    '0' <= c <= '9' || 'a' <= c <= 'f'
  }

  predicate AllHexDigits(s: string) {
    forall i :: 0 <= i < |s| ==> IsHexDigit(s[i])
  }

  /** The form `hex()` produces: one digit or more, no leading zero unless the value is 0. */
  predicate Canonical(s: string) {
    |s| >= 1 && AllHexDigits(s) && (|s| > 1 ==> s[0] != '0')
  }

  function DigitValue(c: char): (d: nat)
    requires IsHexDigit(c)
    ensures d < 16
    ensures d == 0 <==> c == '0'
  {
    if c <= '9' then c as int - '0' as int else c as int - 'a' as int + 10
  }

  function DigitChar(d: int): (c: char)
    requires 0 <= d < 16
    ensures IsHexDigit(c) && DigitValue(c) == d
  {
    if d < 10 then ('0' as int + d) as char else ('a' as int + d - 10) as char
  }

  lemma DigitCharOfValue(c: char)
    requires IsHexDigit(c)
    ensures DigitChar(DigitValue(c)) == c
  {
  }

  /** The digits of `n`, most significant first. */
  function Digits(n: nat): (s: string)
    ensures Canonical(s)
    ensures n > 0 ==> s[0] != '0'
  {
    if n < 16 then [DigitChar(n)] else Digits(n / 16) + [DigitChar(n % 16)]
  }

  /** The value of a string of hexadecimal digits, most significant first. */
  function Value(s: string): nat
    requires AllHexDigits(s)
  {
    if s == [] then 0 else Value(s[..|s| - 1]) * 16 + DigitValue(s[|s| - 1])
  }

  /** `hex(n)` */
  function PythonHex(n: nat): (s: string)
    ensures |s| >= 3 && s[..2] == "0x" && Canonical(s[2..])
  {
    "0x" + Digits(n)
  }

  lemma {:induction false} DigitsRoundTrip(n: nat)
    ensures Value(Digits(n)) == n
  {
    if n >= 16 {
      var s := Digits(n);
      assert s[..|s| - 1] == Digits(n / 16);
      DigitsRoundTrip(n / 16);
    }
  }

  /** A digit string is at least its leading digit. */
  lemma {:induction false} ValueAtLeastLead(s: string)
    requires |s| >= 1 && AllHexDigits(s)
    ensures Value(s) >= DigitValue(s[0])
  {
    if |s| > 1 {
      var init := s[..|s| - 1];
      assert init[0] == s[0];
      ValueAtLeastLead(init);
    }
  }

  /** Appending a digit to a nonzero number appends its character to the digits. */
  lemma DigitsAppend(v: nat, d: nat)
    requires v >= 1 && d < 16
    ensures Digits(v * 16 + d) == Digits(v) + [DigitChar(d)]
  {
    var n := v * 16 + d;
    assert n >= 16;
    assert n / 16 == v && n % 16 == d;
  }

  lemma {:induction false} ValueRoundTrip(s: string)
    requires Canonical(s)
    ensures Digits(Value(s)) == s
  {
    var last := s[|s| - 1];
    DigitCharOfValue(last);
    if |s| == 1 {
      assert s == [last];
    } else {
      var init := s[..|s| - 1];
      assert init[0] == s[0];
      assert Canonical(init);
      ValueAtLeastLead(init);
      ValueRoundTrip(init);
      DigitsAppend(Value(init), DigitValue(last));
      assert s == init + [last];
    }
  }

  /** Distinct values have distinct `hex()` strings. */
  lemma PythonHexInjective(m: nat, n: nat)
    ensures PythonHex(m) == PythonHex(n) <==> m == n
  {
    if PythonHex(m) == PythonHex(n) {
      assert Digits(m) == PythonHex(m)[2..] == PythonHex(n)[2..] == Digits(n);
      DigitsRoundTrip(m);
      DigitsRoundTrip(n);
    }
  }
}
