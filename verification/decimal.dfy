/** Decimal rendering of integers, as Go's `strconv.FormatInt(i, 10)` and the
    `%v` verb of `fmt` produce it, together with the reading it inverts. */
module Decimal {
  import opened Wrappers

  predicate IsDigit(c: char) {
    '0' <= c <= '9'
  }

  predicate AllDigits(s: string) {
    forall i :: 0 <= i < |s| ==> IsDigit(s[i])
  }

  function DigitValue(c: char): (d: nat)
    requires IsDigit(c)
    ensures d < 10
  {
    c as int - '0' as int
  }

  function DigitChar(d: nat): (c: char)
    requires d < 10
    ensures IsDigit(c) && DigitValue(c) == d
  {
    ('0' as int + d) as char
  }

  /** The digits of `n`, most significant first, without leading zeros. */
  function NatDigits(n: nat): (s: string)
    ensures |s| >= 1 && AllDigits(s)
    ensures s[0] == '0' ==> n == 0 && s == "0"
    ensures n < 10 <==> |s| == 1
    decreases n
  {
    if n < 10 then [DigitChar(n)] else NatDigits(n / 10) + [DigitChar(n % 10)]
  }

  /** The value a string of digits denotes. */
  function ValueOf(s: string): nat
    requires AllDigits(s)
  {
    if |s| == 0 then 0 else 10 * ValueOf(s[..|s| - 1]) + DigitValue(s[|s| - 1])
  }

  /** `strconv.FormatInt(i, 10)`: an optional minus sign, then the digits.
      `ParseInt` reads every such form back as the integer it was made from. */
  function FormatInt(i: int): (s: string)
    ensures |s| >= 1 && (s[0] == '-' <==> i < 0)
    ensures var digits := if i < 0 then s[1..] else s;
      |digits| >= 1 && AllDigits(digits) && (digits[0] == '0' ==> i == 0 && |digits| == 1)
    ensures ParseInt(s) == Some(i)
  {
    if i < 0 then
      var digits := NatDigits(-i);
      NatDigitsValue(-i);
      assert ("-" + digits)[1..] == digits;
      "-" + digits
    else
      var digits := NatDigits(i);
      NatDigitsValue(i);
      assert IsDigit(digits[0]);
      digits
  }

  /** Reads back what `FormatInt` writes: an optional `-` followed by at least
      one digit; anything else is `None`. */
  function ParseInt(s: string): Option<int>
  {
    if |s| >= 2 && s[0] == '-' && AllDigits(s[1..]) then
      var magnitude: int := ValueOf(s[1..]);
      Some(-magnitude)
    else if |s| >= 1 && AllDigits(s) then Some(ValueOf(s))
    else None
  }

  lemma {:induction false} NatDigitsValue(n: nat)
    ensures ValueOf(NatDigits(n)) == n
    decreases n
  {
    if n >= 10 {
      var s := NatDigits(n);
      NatDigitsValue(n / 10);
      assert s[..|s| - 1] == NatDigits(n / 10);
    }
  }

  /** Distinct integers never share a decimal form. */
  lemma FormatIntInjective(i: int, j: int)
    ensures FormatInt(i) == FormatInt(j) <==> i == j
  {
  }

  /** A single digit is written as the one character for that digit. */
  lemma FormatDigit(d: int)
    requires 0 <= d < 10
    ensures FormatInt(d) == [DigitChar(d)]
  {
  }
}
