/**
 * Integer text as the handlers and the page exchange it: `parseInt` on a
 * query parameter (decimal digits after an optional sign, trailing text
 * ignored, NaN when no digit is found) and `Number.prototype.toString` on
 * a non-negative integer.
 */
module Decimal {

  /** A JavaScript number that holds an integer or is NaN. */
  datatype Num = Int(value: int) | NaN {

    /** `a + b`: NaN when either side is NaN. */
    function Plus(other: Num): Num {
      if Int? && other.Int? then Int(value + other.value) else NaN
    }

    /** `a - k` for an integer constant `k`. */
    function MinusConst(k: int): Num {
      if Int? then Int(value - k) else NaN
    }
  }

  predicate IsDigit(c: char) {
    '0' <= c <= '9'
  }

  predicate AllDigits(s: string) {
    forall i :: 0 <= i < |s| ==> IsDigit(s[i])
  }

  function DigitChar(d: nat): (c: char)
    requires d < 10
    ensures IsDigit(c)
  {
    ('0' as int + d) as char
  }

  function DigitValue(c: char): (d: nat)
    requires IsDigit(c)
    ensures d < 10 && DigitChar(d) == c
  {
    c as int - '0' as int
  }

  /** The number written by a run of decimal digits (most significant first). */
  function DigitsValue(s: string): nat
    requires AllDigits(s)
  {
    if s == [] then 0 else DigitsValue(s[..|s| - 1]) * 10 + DigitValue(s[|s| - 1])
  }

  /** The length of the longest run of digits at the front of `s`. */
  function DigitPrefixLength(s: string): (k: nat)
    ensures k <= |s|
    ensures AllDigits(s[..k])
    ensures k < |s| ==> !IsDigit(s[k])
  {
    if s == [] || !IsDigit(s[0]) then 0
    else
      var k := 1 + DigitPrefixLength(s[1..]);
      assert s[..k] == [s[0]] + s[1..][..k - 1];
      k
  }

  /**
   * `parseInt(s)` for the texts the handlers see: an optional `+` or `-`,
   * then the leading digits; anything after them is ignored, and NaN comes
   * back when no digit follows the sign.
   */
  function ParseInt(s: string): (r: Num)
    ensures r.NaN? <==> var body := SignlessPart(s); body == [] || !IsDigit(body[0])
  {
    var body := SignlessPart(s);
    var k := DigitPrefixLength(body);
    if k == 0 then NaN
    else
      var magnitude: int := DigitsValue(body[..k]);
      Int(if |s| > 0 && s[0] == '-' then -magnitude else magnitude)
  }

  /** `s` without its leading sign character, if it has one. */
  function SignlessPart(s: string): string {
    if |s| > 0 && (s[0] == '-' || s[0] == '+') then s[1..] else s
  }

  /** `n.toString()` for a non-negative integer: its decimal digits, no sign, no leading zero. */
  function NatToString(n: nat): (s: string)
    ensures |s| > 0 && AllDigits(s)
    ensures |s| > 1 ==> s[0] != '0'
  {
    if n < 10 then [DigitChar(n)] else NatToString(n / 10) + [DigitChar(n % 10)]
  }

  /** The digits that `NatToString` writes denote the number it was given. */
  lemma {:induction false} DigitsValueOfNatToString(n: nat)
    ensures DigitsValue(NatToString(n)) == n
  {
    var s := NatToString(n);
    if n >= 10 {
      DigitsValueOfNatToString(n / 10);
      assert s[..|s| - 1] == NatToString(n / 10);
    }
  }

  /** `parseInt(n.toString()) === n` for every non-negative integer `n`. */
  lemma ParseIntOfNatToString(n: nat)
    ensures ParseInt(NatToString(n)) == Int(n)
  {
    var s := NatToString(n);
    assert SignlessPart(s) == s;
    assert DigitPrefixLength(s) == |s| by {
      AllDigitsPrefixLength(s);
    }
    assert s[..|s|] == s;
    DigitsValueOfNatToString(n);
  }

  /** A text made only of digits is one digit run. */
  lemma AllDigitsPrefixLength(s: string)
    requires AllDigits(s)
    ensures DigitPrefixLength(s) == |s|
  {
  }
}
