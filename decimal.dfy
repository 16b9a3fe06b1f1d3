/**
 * Decimal text of natural numbers, as produced by JavaScript's Number.toString,
 * Go's strconv.Itoa and fmt's "%d", and read back by strconv.ParseUint(s, 10, bits).
 */
module Decimal {
  import opened Numeric
  import opened Outcomes

  predicate IsDigit(c: char) {
    '0' <= c <= '9'
  }

  predicate AllDigits(s: string) {
    forall i :: 0 <= i < |s| ==> IsDigit(s[i])
  }

  function DigitChar(d: nat): (c: char)
    requires d < 10
    ensures IsDigit(c) && (c as int) - ('0' as int) == d
  {
    ('0' as int + d) as char
  }

  function DigitValue(c: char): (d: nat)
    requires IsDigit(c)
    ensures d < 10 && DigitChar(d) == c
  {
    (c as int) - ('0' as int)
  }

  /** The shortest decimal text of n, without sign or leading zeros. */
  function NatToString(n: nat): (s: string)
    ensures |s| > 0 && AllDigits(s)
    ensures |s| > 1 ==> s[0] != '0'
    decreases n
  {
    if n < 10 then [DigitChar(n)] else NatToString(n / 10) + [DigitChar(n % 10)]
  }

  /** The value of a string of decimal digits (the empty string reads as 0). */
  function DigitsValue(s: string): nat
    requires AllDigits(s)
  {
    if s == [] then 0 else DigitsValue(s[..|s| - 1]) * 10 + DigitValue(s[|s| - 1])
  }

  lemma {:induction false} NatToStringValue(n: nat)
    ensures DigitsValue(NatToString(n)) == n
    decreases n
  {
    if n >= 10 {
      var s := NatToString(n);
      assert s[..|s| - 1] == NatToString(n / 10);
      NatToStringValue(n / 10);
    }
  }

  /** Distinct numbers have distinct decimal texts. */
  lemma NatToStringInjective(a: nat, b: nat)
    requires NatToString(a) == NatToString(b)
    ensures a == b
  {
    NatToStringValue(a);
    NatToStringValue(b);
  }

  /** strconv.ParseUint(s, 10, bits): digits only, no sign, value below 2^bits. */
  function ParseUint(s: string, bits: nat): (r: Option<nat>)
    ensures r.Some? <==> |s| > 0 && AllDigits(s) && DigitsValue(s) < Pow2(bits)
    ensures r.Some? ==> r.value == DigitsValue(s) && r.value < Pow2(bits)
  {
    if |s| > 0 && AllDigits(s) && DigitsValue(s) < Pow2(bits) then Some(DigitsValue(s)) else None
  }

  /** Reading back the decimal text of a number below 2^bits gives that number. */
  lemma ParseUintOfNatToString(n: nat, bits: nat)
    requires n < Pow2(bits)
    ensures ParseUint(NatToString(n), bits) == Some(n)
  {
    NatToStringValue(n);
  }

  /** The longest run of digits at the start of s. */
  function DigitPrefix(s: string): (p: string)
    ensures AllDigits(p) && p <= s
  {
    if |s| == 0 || !IsDigit(s[0]) then [] else [s[0]] + DigitPrefix(s[1..])
  }

  /** Digits followed by nothing or by a non-digit: the digits are the digit prefix. */
  lemma {:induction false} DigitPrefixOf(a: string, rest: string)
    requires AllDigits(a) && (|rest| == 0 || !IsDigit(rest[0]))
    ensures DigitPrefix(a + rest) == a
    decreases |a|
  {
    if |a| > 0 {
      assert (a + rest)[1..] == a[1..] + rest;
      DigitPrefixOf(a[1..], rest);
    } else {
      assert a + rest == rest;
    }
  }
}
