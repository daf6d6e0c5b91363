/**
 * Decimal text as the episode-number normaliser uses it: `str::parse::<usize>` (an optional
 * `+`, then one or more ASCII digits, the value below 2^64) and `format!("{:04}", n)`
 * (the decimal digits of `n`, left-padded with zeros to at least four characters).
 */
module Decimal {
  import opened Wrappers

  /** `usize` on the 64-bit targets the program is built for. */
  const USIZE_LIMIT: nat := 0x1_0000_0000_0000_0000

  predicate IsDigit(c: char) {
    '0' <= c <= '9'
  }

  predicate AllDigits(s: string) {
    forall i :: 0 <= i < |s| ==> IsDigit(s[i])
  }

  function DigitValue(c: char): nat
    requires IsDigit(c)
  {
    (c as int - '0' as int) as nat
  }

  function DigitChar(d: nat): (c: char)
    requires d < 10
    ensures IsDigit(c) && DigitValue(c) == d
  {
    ('0' as int + d) as char
  }

  /** The number a string of digits denotes, most significant digit first. */
  function DigitsValue(s: string): nat
    requires AllDigits(s)
  {
    if |s| == 0 then 0 else DigitsValue(s[..|s| - 1]) * 10 + DigitValue(s[|s| - 1])
  }

  /** `str::parse::<usize>`. */
  function ParseUsize(s: string): (r: Option<nat>)
    ensures r.Some? ==> r.value < USIZE_LIMIT
    ensures r.Some? ==> |s| > 0 && (IsDigit(s[0]) || s[0] == '+')
    ensures r.Some? && s[0] != '+' ==> AllDigits(s) && r.value == DigitsValue(s)
    ensures r.Some? && s[0] == '+' ==> |s| > 1 && AllDigits(s[1..]) && r.value == DigitsValue(s[1..])
  {
    var d := if |s| > 0 && s[0] == '+' then s[1..] else s;
    if |d| > 0 && AllDigits(d) && DigitsValue(d) < USIZE_LIMIT then Some(DigitsValue(d)) else None
  }

  /** Every unsigned run of digits that fits in a `usize` parses, to its value. */
  lemma ParseUsizeAcceptsDigits(s: string)
    requires |s| > 0 && AllDigits(s) && DigitsValue(s) < USIZE_LIMIT
    ensures ParseUsize(s) == Some(DigitsValue(s))
  {
  }

  /**
   * One leading `+` is read past: the signed text parses as the text after it, except
   * that a second sign is rejected.
   */
  lemma ParseUsizeSkipsPlus(s: string)
    requires |s| > 1 && s[0] == '+'
    ensures ParseUsize(s) == if s[1] == '+' then None else ParseUsize(s[1..])
  {
    if s[1] == '+' {
      assert !IsDigit(s[1..][0]);
    }
  }

  /** The decimal digits of `n`, without leading zeros. */
  function ToDecimal(n: nat): (r: string)
    ensures |r| > 0 && AllDigits(r) && DigitsValue(r) == n
    ensures |r| > 1 ==> r[0] != '0'
  {
    if n < 10 then [DigitChar(n)]
    else
      var r := ToDecimal(n / 10) + [DigitChar(n % 10)];
      assert r[..|r| - 1] == ToDecimal(n / 10);
      r
  }

  function Zeros(k: nat): (r: string)
    ensures |r| == k && AllDigits(r)
    ensures forall i :: 0 <= i < k ==> r[i] == '0'
  {
    if k == 0 then [] else Zeros(k - 1) + ['0']
  }

  /**
   * `format!("{:04}", n)`: exactly four characters when the digits of `n` are fewer, the
   * digits themselves otherwise, with zeros in front of the digits.
   */
  function ZeroPad4(n: nat): (r: string)
    ensures |r| >= 4 && AllDigits(r) && DigitsValue(r) == n
    ensures |ToDecimal(n)| < 4 ==> |r| == 4 && r == Zeros(4 - |ToDecimal(n)|) + ToDecimal(n)
    ensures |ToDecimal(n)| >= 4 ==> r == ToDecimal(n)
  {
    var d := ToDecimal(n);
    var r := if |d| < 4 then Zeros(4 - |d|) + d else d;
    LeadingZeros(4 - |d| as int, d);
    r
  }

  /** Leading zeros do not change the value of a digit string. */
  lemma {:induction false} LeadingZeros(k: int, s: string)
    requires AllDigits(s)
    ensures k > 0 ==> AllDigits(Zeros(k) + s) && DigitsValue(Zeros(k) + s) == DigitsValue(s)
    decreases |s|
  {
    if k > 0 {
      var z := Zeros(k) + s;
      assert AllDigits(z) by {
        forall i | 0 <= i < |z| ensures IsDigit(z[i]) {
          if i >= k { assert z[i] == s[i - k]; }
        }
      }
      if |s| == 0 {
        assert z == Zeros(k);
        ZerosValue(k);
      } else {
        assert z[..|z| - 1] == Zeros(k) + s[..|s| - 1];
        LeadingZeros(k, s[..|s| - 1]);
      }
    }
  }

  lemma {:induction false} ZerosValue(k: nat)
    ensures DigitsValue(Zeros(k)) == 0
  {
    if k > 0 {
      assert Zeros(k)[..k - 1] == Zeros(k - 1);
      ZerosValue(k - 1);
    }
  }

  /** Reading back a zero-padded number gives the number. */
  lemma ParseZeroPad4(n: nat)
    requires n < USIZE_LIMIT
    ensures ParseUsize(ZeroPad4(n)) == Some(n)
  {
  }
}
