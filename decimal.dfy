/**
 * Decimal integer text: the numbers a numeric policy condition compares and
 * the Content-Length header values the S3 server writes.
 */
module Decimal {
  import opened Wrappers

  predicate IsDigit(c: char) {
    '0' <= c <= '9'
  }

  function DigitValue(c: char): (d: nat)
    requires IsDigit(c)
    ensures d < 10
  {
    (c - '0') as nat
  }

  function DigitChar(d: nat): (c: char)
    requires d < 10
    ensures IsDigit(c) && DigitValue(c) == d
  {
    ('0' as int + d) as char
  }

  predicate AllDigits(s: string) {
    forall i :: 0 <= i < |s| ==> IsDigit(s[i])
  }

  /** The value of a run of decimal digits, most significant first. */
  function DigitsValue(s: string): nat
    requires AllDigits(s)
  {
    if |s| == 0 then 0 else DigitsValue(s[..|s| - 1]) * 10 + DigitValue(s[|s| - 1])
  }

  /** The shortest decimal spelling of `n`, as std::to_string writes it. */
  function FormatNat(n: nat): (r: string)
    ensures |r| > 0 && AllDigits(r)
    ensures r[0] == '0' ==> n == 0
    decreases n
  {
    if n < 10 then [DigitChar(n)] else FormatNat(n / 10) + [DigitChar(n % 10)]
  }

  /** The decimal spelling of `i`, with a leading '-' when it is negative. */
  function FormatInt(i: int): (r: string)
    ensures |r| > 0
    ensures (r[0] == '-') <==> i < 0
  {
    if i < 0 then "-" + FormatNat(-i) else FormatNat(i)
  }

  /**
   * An optional sign ('+' or '-') followed by one or more decimal digits;
   * anything else (empty text, a lone sign, a fraction, blanks) is not a number.
   */
  function ParseInt(s: string): (r: Option<int>)
    ensures r.Some? ==> |s| > 0
    ensures r.Some? && s[0] != '-' ==> r.value >= 0
  {
    if |s| > 0 && (s[0] == '-' || s[0] == '+') then
      var digits := s[1..];
      if |digits| > 0 && AllDigits(digits) then
        var magnitude: int := DigitsValue(digits);
        Some(if s[0] == '-' then -magnitude else magnitude)
      else None
    else if |s| > 0 && AllDigits(s) then Some(DigitsValue(s))
    else None
  }

  lemma {:induction false} DigitsValueOfFormat(n: nat)
    ensures DigitsValue(FormatNat(n)) == n
    decreases n
  {
    if n >= 10 {
      var r := FormatNat(n);
      var prefix := FormatNat(n / 10);
      assert r == prefix + [DigitChar(n % 10)];
      assert r[..|r| - 1] == prefix;
      DigitsValueOfFormat(n / 10);
    }
  }

  /** Formatting then parsing gives the number back. */
  lemma ParseFormatNat(n: nat)
    ensures ParseInt(FormatNat(n)) == Some(n)
  {
    DigitsValueOfFormat(n);
  }

  /** Formatting then parsing gives the number back, for any sign. */
  lemma ParseFormatInt(i: int)
    ensures ParseInt(FormatInt(i)) == Some(i)
  {
    if i < 0 {
      var r := FormatInt(i);
      assert r == "-" + FormatNat(-i);
      assert r[0] == '-' && r[1..] == FormatNat(-i);
      DigitsValueOfFormat(-i);
    } else {
      ParseFormatNat(i);
    }
  }
}
