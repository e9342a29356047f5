/**
 * Python's `str(n)` for an integer: optional '-' then decimal digits with no
 * leading zero. `ParseInt` reads exactly those strings back, so the two are
 * inverse bijections between integers and canonical decimal strings.
 */
module Decimal {
  import opened Wrappers

  predicate IsDigit(c: char) {
    '0' <= c <= '9'
  }

  predicate AllDigits(s: string) {
    forall i :: 0 <= i < |s| ==> IsDigit(s[i])
  }

  function DigitValue(c: char): int
    requires IsDigit(c)
  {
    c as int - '0' as int
  }

  function DigitChar(d: int): (c: char)
    requires 0 <= d < 10
    ensures IsDigit(c) && DigitValue(c) == d
  {
    (d + '0' as int) as char
  }

  /** The value of a string of decimal digits, most significant first. */
  function DigitsValue(s: string): nat
    requires AllDigits(s)
    decreases |s|
  {
    if s == [] then 0 else DigitsValue(s[..|s| - 1]) * 10 + DigitValue(s[|s| - 1])
  }

  /** The digits of `n` without leading zeros: reads back as `n`. */
  function NatToDecimal(n: nat): (s: string)
    ensures |s| >= 1 && AllDigits(s)
    ensures s[0] == '0' <==> n == 0
    ensures DigitsValue(s) == n
    decreases n
  {
    if n < 10 then [DigitChar(n)]
    else
      var front := NatToDecimal(n / 10);
      var s := front + [DigitChar(n % 10)];
      assert s[..|s| - 1] == front;
      s
  }

  /** Python's `str(i)` for an integer `i`. */
  function IntToString(i: int): (s: string)
    ensures ParseInt(s) == Some(i)
    ensures forall k :: 0 <= k < |s| ==> s[k] == '-' || IsDigit(s[k])
  {
    if i < 0 then
      var digits := NatToDecimal(-i);
      var s := "-" + digits;
      assert s[1..] == digits;
      s
    else NatToDecimal(i)
  }

  /** A canonical decimal string: what `str` produces for some integer. */
  function ParseInt(s: string): Option<int> {
    if |s| >= 2 && s[0] == '-' && AllDigits(s[1..]) && s[1] != '0' then Some(-(DigitsValue(s[1..]) as int))
    else if |s| >= 1 && AllDigits(s) && (|s| == 1 || s[0] != '0') then Some(DigitsValue(s))
    else None
  }

  /** A digit string without a leading zero is the one `NatToDecimal` writes. */
  lemma {:induction false} CanonicalDigits(s: string)
    requires |s| >= 1 && AllDigits(s) && (|s| == 1 || s[0] != '0')
    ensures NatToDecimal(DigitsValue(s)) == s
    decreases |s|
  {
    var c := s[|s| - 1];
    assert DigitChar(DigitValue(c)) == c;
    if |s| > 1 {
      var front := s[..|s| - 1];
      assert front[0] == s[0];
      CanonicalDigits(front);
      var v := DigitsValue(front);
      assert v != 0;
      var n := DigitsValue(s);
      assert n == v * 10 + DigitValue(c);
      assert n / 10 == v && n % 10 == DigitValue(c);
      assert s == front + [c];
    } else {
      assert DigitsValue(s) == DigitValue(c) by {
        assert s[..0] == [];
      }
      assert s == [c];
    }
  }

  /** Every string `ParseInt` accepts is the one `str` writes for its value. */
  lemma ParseIntCanonical(s: string, i: int)
    requires ParseInt(s) == Some(i)
    ensures IntToString(i) == s
  {
    if |s| >= 2 && s[0] == '-' && AllDigits(s[1..]) && s[1] != '0' {
      CanonicalDigits(s[1..]);
      assert s == "-" + s[1..];
    } else {
      CanonicalDigits(s);
    }
  }

  /** Distinct integers print differently. */
  lemma IntToStringInjective(i: int, j: int)
    requires IntToString(i) == IntToString(j)
    ensures i == j
  {
  }
}
