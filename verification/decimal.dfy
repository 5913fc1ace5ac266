/**
 Decimal rendering and parsing of integers.

 Ruby's `Integer#to_s` renders the lease key suffix, and Redis keeps counters
 as decimal strings that `INCR` parses and re-renders. Both use the canonical
 form: an optional `-`, then digits without leading zeros.
 */
module Decimal {
  import opened Wrappers

  predicate IsDigit(c: char) {
    '0' <= c <= '9'
  }

  predicate AllDigits(s: string) {
    forall i :: 0 <= i < |s| ==> IsDigit(s[i])
  }

  function DigitValue(c: char): (d: nat)
    requires IsDigit(c)
    ensures d < 10
  {
    (c as int) - ('0' as int)
  }

  function DigitChar(d: nat): (c: char)
    requires d < 10
    ensures IsDigit(c) && DigitValue(c) == d
  {
    (('0' as int) + d) as char
  }

  /** The digits of `n`, most significant first. */
  function NatToDecimal(n: nat): (s: string)
    ensures 1 <= |s| && AllDigits(s)
    decreases n
  {
    if n < 10 then [DigitChar(n)] else NatToDecimal(n / 10) + [DigitChar(n % 10)]
  }

  /** `Integer#to_s`: a leading `-` exactly for negative numbers. */
  function IntToDecimal(n: int): (s: string)
    ensures 1 <= |s|
    ensures s[0] == '-' <==> n < 0
  {
    if n < 0 then "-" + NatToDecimal(-n) else NatToDecimal(n)
  }

  /** The number a string of digits denotes (leading zeros allowed). */
  function DigitsValue(s: string): nat
    requires AllDigits(s)
    decreases |s|
  {
    if |s| == 0 then 0 else 10 * DigitsValue(s[..|s| - 1]) + DigitValue(s[|s| - 1])
  }

  /**
   Reads a canonical decimal integer. Anything else (empty, stray characters,
   a leading zero, `-0`, a `+` sign) is rejected.
   */
  function ParseInt(s: string): (r: Option<int>)
  {
    var v: Option<int> :=
      if 1 <= |s| && s[0] == '-' && AllDigits(s[1..]) then Some(-(DigitsValue(s[1..]) as int))
      else if AllDigits(s) then Some(DigitsValue(s))
      else None;
    if v.Some? && IntToDecimal(v.value) == s then v else None
  }

  lemma {:induction false} DigitsValueOfNatToDecimal(n: nat)
    ensures DigitsValue(NatToDecimal(n)) == n
    decreases n
  {
    var s := NatToDecimal(n);
    if n < 10 {
      assert s[..|s| - 1] == [];
    } else {
      assert s[..|s| - 1] == NatToDecimal(n / 10);
      DigitsValueOfNatToDecimal(n / 10);
    }
  }

  /** Parsing inverts rendering, and parsing accepts only rendered strings. */
  lemma ParseIntInvertsIntToDecimal(n: int, s: string)
    ensures ParseInt(s) == Some(n) <==> IntToDecimal(n) == s
  {
    if IntToDecimal(n) == s {
      if n < 0 {
        assert s[1..] == NatToDecimal(-n);
        DigitsValueOfNatToDecimal(-n);
      } else {
        DigitsValueOfNatToDecimal(n);
      }
    }
  }

  /** Distinct integers render to distinct strings. */
  lemma IntToDecimalInjective(a: int, b: int)
    ensures IntToDecimal(a) == IntToDecimal(b) <==> a == b
  {
    ParseIntInvertsIntToDecimal(a, IntToDecimal(a));
    ParseIntInvertsIntToDecimal(b, IntToDecimal(b));
  }
}
