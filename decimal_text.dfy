/**
 * The decimal text that `snprintf`'s `%llu` and `%03llu` conversions produce
 * for a non-negative integer (section 7.21.6.1 of ISO C11): `%llu` gives the
 * shortest digit string (one "0" for zero), `%03llu` pads that with leading
 * zeros to at least three characters.
 */
module DecimalText {

  predicate IsDigit(c: char) {
    '0' <= c <= '9'
  }

  predicate AllDigits(s: string) {
    forall i :: 0 <= i < |s| ==> IsDigit(s[i])
  }

  function DigitChar(d: nat): (c: char)
    requires d < 10
    ensures IsDigit(c) && DigitValue(c) == d
  {
    (('0' as int) + d) as char
  }

  function DigitValue(c: char): nat
    requires IsDigit(c)
  {
    (c as int) - ('0' as int)
  }

  /** The number a digit string denotes, most significant digit first. */
  function Value(s: string): nat
    requires AllDigits(s)
  {
    if s == [] then 0 else Value(s[..|s| - 1]) * 10 + DigitValue(s[|s| - 1])
  }

  /** `%llu`: the shortest decimal rendering of n. */
  function Decimal(n: nat): (s: string)
    ensures |s| >= 1 && AllDigits(s)
    ensures Value(s) == n
    ensures |s| > 1 ==> s[0] != '0'
  {
    if n < 10 then [DigitChar(n)]
    else
      var prefix := Decimal(n / 10);
      var s := prefix + [DigitChar(n % 10)];
      assert s[..|s| - 1] == prefix;
      s
  }

  /** `%03llu` for a value below 1000: exactly three digits, zero-padded on the left. */
  function Pad3(n: nat): (s: string)
    requires n < 1000
    ensures |s| == 3 && AllDigits(s)
    ensures Value(s) == n
  {
    var hundreds, tens, ones := n / 100, (n / 10) % 10, n % 10;
    var one := [DigitChar(hundreds)];
    var two := one + [DigitChar(tens)];
    var s := two + [DigitChar(ones)];
    assert one[..0] == [] && two[..1] == one && s[..2] == two;
    assert Value(one) == hundreds;
    assert Value(two) == hundreds * 10 + tens;
    assert Value(s) == Value(two) * 10 + ones;
    assert n == (hundreds * 10 + tens) * 10 + ones;
    s
  }
}
