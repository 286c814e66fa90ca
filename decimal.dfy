/**
 * Decimal rendering of integers as Python's str() and the format
 * specifier "{index:0{digits}d}" of format_index produce it, and the
 * value int() reads back from a string of digits.
 */
module Decimal {

  function Max(a: int, b: int): int { if a < b then b else a }

  function Min(a: int, b: int): int { if a < b then a else b }

  function Abs(n: int): nat { if n < 0 then -n else n }

  predicate IsDigit(c: char) { '0' <= c <= '9' }

  predicate AllDigits(s: string) { forall k :: 0 <= k < |s| ==> IsDigit(s[k]) }

  function DigitChar(d: nat): (c: char)
    requires d < 10
    ensures IsDigit(c) && c as int - '0' as int == d
  {
    ('0' as int + d) as char
  }

  function DigitValue(c: char): (d: nat)
    requires IsDigit(c)
    ensures d < 10
  {
    c as int - '0' as int
  }

  /** str(n) for n >= 0: at least one digit, and no leading zero unless n is 0. */
  function Digits(n: nat): (s: string)
    ensures 1 <= |s| && AllDigits(s)
    ensures s[0] == '0' ==> n == 0
  {
    if n < 10 then [DigitChar(n)] else Digits(n / 10) + [DigitChar(n % 10)]
  }

  /** str(n) for any integer: a minus sign, then the digits of |n|. */
  function Str(n: int): string {
    (if n < 0 then "-" else "") + Digits(Abs(n))
  }

  /** The number int() reads from a string of decimal digits; leading zeros are allowed. */
  function Value(s: string): nat
    requires AllDigits(s)
  {
    if s == [] then 0 else 10 * Value(s[..|s| - 1]) + DigitValue(s[|s| - 1])
  }

  /** k zero characters, none when k <= 0 */
  function Zeros(k: int): (s: string)
    ensures |s| == Max(k, 0)
    ensures forall j :: 0 <= j < |s| ==> s[j] == '0'
  {
    seq(Max(k, 0), _ => '0')
  }

  /**
   * format_index(index, total_videos): index in decimal, zero-padded to the
   * width of str(total_videos). The width is a minimum, never a truncation;
   * a negative index keeps its sign in front of the padding.
   */
  function FormatIndex(index: int, total: nat): (s: string)
    ensures |s| == Max(|Digits(total)|, |Str(index)|)
  {
    var sign := if index < 0 then "-" else "";
    sign + Zeros(|Digits(total)| - |Str(index)|) + Digits(Abs(index))
  }

  lemma {:induction false} ValueOfDigits(n: nat)
    ensures Value(Digits(n)) == n
  {
    if n >= 10 {
      var s := Digits(n);
      assert s[..|s| - 1] == Digits(n / 10);
      ValueOfDigits(n / 10);
    }
  }

  lemma {:induction false} ValueOfZeros(k: nat)
    ensures AllDigits(Zeros(k)) && Value(Zeros(k)) == 0
  {
    if k > 0 {
      assert Zeros(k)[..k - 1] == Zeros(k - 1);
      ValueOfZeros(k - 1);
    }
  }

  /** int() ignores leading zeros. */
  lemma {:induction false} ValueIgnoresLeadingZeros(k: nat, s: string)
    requires AllDigits(s)
    ensures AllDigits(Zeros(k) + s) && Value(Zeros(k) + s) == Value(s)
  {
    var t := Zeros(k) + s;
    if s == [] {
      assert t == Zeros(k);
      ValueOfZeros(k);
    } else {
      assert t[..|t| - 1] == Zeros(k) + s[..|s| - 1];
      ValueIgnoresLeadingZeros(k, s[..|s| - 1]);
    }
  }

  /** A larger number never has fewer digits. */
  lemma {:induction false} DigitsMonotone(a: nat, b: nat)
    requires a <= b
    ensures |Digits(a)| <= |Digits(b)|
  {
    if a >= 10 {
      DigitsMonotone(a / 10, b / 10);
    }
  }

  /** A label for a non-negative index is all digits, and int() reads the index back from it. */
  lemma FormatIndexValue(index: int, total: nat)
    requires index >= 0
    ensures AllDigits(FormatIndex(index, total))
    ensures Value(FormatIndex(index, total)) == index
  {
    var pad := Zeros(|Digits(total)| - |Str(index)|);
    assert FormatIndex(index, total) == Zeros(|pad|) + Digits(index);
    ValueIgnoresLeadingZeros(|pad|, Digits(index));
    ValueOfDigits(index);
  }

  /** A label for a negative index is '-' before the zero padding, and int() reads the index back from it. */
  lemma FormatIndexNegative(index: int, total: nat)
    requires index < 0
    ensures var s := FormatIndex(index, total);
      && 2 <= |s| && s[0] == '-'
      && AllDigits(s[1..])
      && Value(s[1..]) == -index
  {
    var s := FormatIndex(index, total);
    var pad := Zeros(|Digits(total)| - |Str(index)|);
    assert s[1..] == Zeros(|pad|) + Digits(-index);
    ValueIgnoresLeadingZeros(|pad|, Digits(-index));
    ValueOfDigits(-index);
  }

  /** Every position 1..total gets a label exactly as wide as str(total). */
  lemma FormatIndexWidth(index: int, total: nat)
    requires 1 <= index <= total
    ensures |FormatIndex(index, total)| == |Digits(total)|
  {
    DigitsMonotone(index, total);
  }

  /** Distinct non-negative indices get distinct labels. */
  lemma FormatIndexInjective(a: int, b: int, total: nat)
    requires 0 <= a && 0 <= b && a != b
    ensures FormatIndex(a, total) != FormatIndex(b, total)
  {
    FormatIndexValue(a, total);
    FormatIndexValue(b, total);
  }
}
