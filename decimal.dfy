/**
 * Decimal text of an unsigned integer, as Rust's `{}` formatting of `u8`
 * writes it: digits only, most significant first, no leading zeros.
 * `Error::PaddingNot0`'s message embeds the offending byte this way.
 */
module Decimal {

  /** Rust's `u8`. */
  type U8 = x: int | 0 <= x < 256

  predicate IsDigit(c: char) {
    '0' <= c <= '9'
  }

  predicate AllDigits(s: string) {
    forall i :: 0 <= i < |s| ==> IsDigit(s[i])
  }

  function DigitChar(d: nat): (c: char)
    requires d < 10
    ensures IsDigit(c) && DigitValue(c) == d
  {
    (48 + d) as char
  }

  function DigitValue(c: char): nat
    requires IsDigit(c)
  {
    c as int - 48
  }

  /** Reads back a digit string, most significant digit first. */
  function FromDecimal(s: string): nat
    requires AllDigits(s)
  {
    if |s| == 0 then 0 else FromDecimal(s[..|s| - 1]) * 10 + DigitValue(s[|s| - 1])
  }

  /**
   * The decimal text of `n`: non-empty, only digits, no leading zero, and
   * reading it back gives `n` again.
   */
  function ToDecimal(n: nat): (s: string)
    ensures |s| >= 1 && AllDigits(s)
    ensures |s| > 1 ==> s[0] != '0'
    ensures FromDecimal(s) == n
  {
    if n < 10 then [DigitChar(n)]
    else
      var prefix := ToDecimal(n / 10);
      var s := prefix + [DigitChar(n % 10)];
      assert s[..|s| - 1] == prefix;
      s
  }

  /** Different numbers never print the same. */
  lemma ToDecimalInjective(m: nat, n: nat)
    ensures ToDecimal(m) == ToDecimal(n) <==> m == n
  {
    if ToDecimal(m) == ToDecimal(n) {
      assert FromDecimal(ToDecimal(m)) == FromDecimal(ToDecimal(n));
    }
  }

  /** A `u8` prints as one to three digits. */
  lemma {:induction false} U8DecimalLength(b: U8)
    ensures 1 <= |ToDecimal(b)| <= 3
  {
    if b >= 10 {
      if b / 10 >= 10 {
        assert |ToDecimal(b / 10 / 10)| == 1;
      }
    }
  }
}
