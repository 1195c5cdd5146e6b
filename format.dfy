/** Text helpers for the parts of Python's str.format that the image plugin
    uses: str() of an integer, a minimum field width on a string (left
    aligned, padded with spaces, never truncated) and the ".1f" rendering of
    a non-negative exact number. */
module Format {

  /** The character of decimal digit d. */
  function DigitChar(d: nat): (c: char)
    requires d < 10
    ensures '0' <= c <= '9'
  {
    ('0' as int + d) as char
  }

  /** The value of a decimal digit character. */
  function DigitValue(c: char): (d: nat)
    requires '0' <= c <= '9'
    ensures d < 10
  {
    c as int - '0' as int
  }

  predicate IsDigits(s: string)
  {
    forall i :: 0 <= i < |s| ==> '0' <= s[i] <= '9'
  }

  /** Decimal text of n, as Python's str(n): digits only, no leading zero. */
  function NatToString(n: nat): (s: string)
    ensures |s| >= 1 && IsDigits(s)
    ensures s[0] == '0' ==> n == 0 && s == "0"
    decreases n
  {
    if n < 10 then [DigitChar(n)] else NatToString(n / 10) + [DigitChar(n % 10)]
  }

  /** The number a string of decimal digits denotes. */
  function ParseNat(s: string): nat
    requires IsDigits(s)
  {
    if s == [] then 0 else 10 * ParseNat(s[..|s| - 1]) + DigitValue(s[|s| - 1])
  }

  /** Reading back the decimal text of n gives n. */
  lemma {:induction false} ParseNatToString(n: nat)
    ensures ParseNat(NatToString(n)) == n
  {
    var s := NatToString(n);
    if n < 10 {
      assert s[..|s| - 1] == [];
    } else {
      assert s[..|s| - 1] == NatToString(n / 10);
      ParseNatToString(n / 10);
    }
  }

  /** Decimal text of i, as Python's str(i): a minus sign, then the digits. */
  function IntToString(i: int): (s: string)
  {
    if i < 0 then "-" + NatToString(-i) else NatToString(i)
  }

  /** The text of i starts with a minus sign exactly when i is negative, and
      the digits after it read back as the absolute value of i, with no
      leading zero. */
  lemma IntToStringReadsBack(i: int)
    ensures |IntToString(i)| >= 1
    ensures IntToString(i)[0] == '-' <==> i < 0
    ensures i < 0 ==> IsDigits(IntToString(i)[1..]) && ParseNat(IntToString(i)[1..]) == -i
    ensures i >= 0 ==> IsDigits(IntToString(i)) && ParseNat(IntToString(i)) == i
    ensures var d := if i < 0 then IntToString(i)[1..] else IntToString(i);
      |d| >= 1 && (d[0] == '0' ==> d == "0")
  {
    if i < 0 {
      assert IntToString(i)[1..] == NatToString(-i);
      ParseNatToString(-i);
    } else {
      ParseNatToString(i);
    }
  }

  function Spaces(k: nat): (s: string)
    ensures |s| == k && forall i :: 0 <= i < k ==> s[i] == ' '
  {
    seq(k, _ => ' ')
  }

  /** A string in a field of at least width characters, as "{0:<width>}"
      formats a str: left aligned, padded with spaces, never truncated. */
  function LeftJustify(s: string, width: nat): (r: string)
    ensures |r| == if |s| < width then width else |s|
    ensures r[..|s|] == s
    ensures r[|s|..] == Spaces(|r| - |s|)
  {
    if |s| < width then s + Spaces(width - |s|) else s
  }

  /** Round to the nearest integer, ties to the even one. */
  function RoundHalfEven(x: real): (r: int)
    ensures -0.5 <= x - r as real <= 0.5
    ensures (x - r as real == 0.5 || x - r as real == -0.5) ==> r % 2 == 0
  {
    var f := x.Floor;
    var d := x - f as real;
    if d < 0.5 then f
    else if d > 0.5 then f + 1
    else if f % 2 == 0 then f
    else f + 1
  }

  /** The two properties of RoundHalfEven determine its result. */
  lemma RoundHalfEvenUnique(x: real, r: int)
    requires -0.5 <= x - r as real <= 0.5
    requires (x - r as real == 0.5 || x - r as real == -0.5) ==> r % 2 == 0
    ensures r == RoundHalfEven(x)
  {
  }

  /** Python's "{0:.1f}" of a non-negative number x: the integer part, a
      point and one digit, for x rounded to tenths, ties to even. */
  function OneDecimal(x: real): (s: string)
    requires x >= 0.0
  {
    var t := RoundHalfEven(10.0 * x);
    NatToString(t / 10) + "." + [DigitChar(t % 10)]
  }

  /** A text "<digits>.<digit>". */
  predicate IsOneDecimal(s: string)
  {
    |s| >= 3 && s[|s| - 2] == '.' && IsDigits(s[..|s| - 2]) && '0' <= s[|s| - 1] <= '9'
  }

  /** The number of tenths a text "<digits>.<digit>" denotes. */
  function Tenths(s: string): nat
    requires IsOneDecimal(s)
  {
    10 * ParseNat(s[..|s| - 2]) + DigitValue(s[|s| - 1])
  }

  /** The text of OneDecimal(x) reads back as x rounded to tenths, so it lies
      within 0.05 of x, and an exact tie goes to an even last digit. */
  lemma OneDecimalReadsBack(x: real)
    requires x >= 0.0
    ensures IsOneDecimal(OneDecimal(x))
    ensures Tenths(OneDecimal(x)) == RoundHalfEven(10.0 * x)
    ensures -0.05 <= x - Tenths(OneDecimal(x)) as real / 10.0 <= 0.05
  {
    var t := RoundHalfEven(10.0 * x);
    var s := OneDecimal(x);
    var digits := NatToString(t / 10);
    assert s == digits + "." + [DigitChar(t % 10)];
    assert s[..|s| - 2] == digits;
    ParseNatToString(t / 10);
  }
}
