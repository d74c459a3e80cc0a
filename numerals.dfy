/** Digits, powers of two and decimal text of numbers: the parts of JavaScript's
    number handling (`toString`, `parseInt`, `Math.pow`) that the converter uses,
    stated on unbounded naturals. */
module Numerals {

  /** The regular-expression class `\d`: an ASCII digit. */
  predicate IsDigit(c: char) {
    '0' <= c <= '9'
  }

  /** The regular-expression class `[01]`. */
  predicate IsBit(c: char) {
    c == '0' || c == '1'
  }

  predicate AllDigits(s: string) {
    forall i :: 0 <= i < |s| ==> IsDigit(s[i])
  }

  predicate AllBits(s: string) {
    forall i :: 0 <= i < |s| ==> IsBit(s[i])
  }

  lemma BitsAreDigits(s: string)
    requires AllBits(s)
    ensures AllDigits(s)
  {
  }

  /** `parseInt` of a single digit character. */
  function DigitValue(c: char): (d: nat)
    requires IsDigit(c)
    ensures d < 10
  {
    c as int - '0' as int
  }

  /** The character that `toString` writes for a number below ten. */
  function DigitChar(d: nat): (c: char)
    requires d < 10
    ensures IsDigit(c) && DigitValue(c) == d
    ensures d < 2 ==> IsBit(c)
  {
    ('0' as int + d) as char
  }

  /** `Math.pow(2, k)`, exact. */
  function Pow2(k: nat): (p: nat)
    ensures p >= 1
  {
    if k == 0 then 1 else 2 * Pow2(k - 1)
  }

  /** `parseInt` of a non-empty string of ASCII digits: the digits read as a
      base-ten numeral, leading zeros allowed. The result is never negative. The
      empty string, on which `parseInt` gives `NaN`, reads as 0 here; it is never
      parsed. */
  function ParseDecimal(s: string): (v: int)
    requires AllDigits(s)
    ensures v >= 0
  {
    if s == [] then 0 else 10 * ParseDecimal(s[..|s| - 1]) + DigitValue(s[|s| - 1])
  }

  /** `n.toString()`: the base-ten numeral of n, without leading zeros. */
  function NatToString(n: nat): (s: string)
    ensures |s| > 0 && AllDigits(s)
    ensures |s| > 1 ==> s[0] != '0'
  {
    if n < 10 then [DigitChar(n)] else NatToString(n / 10) + [DigitChar(n % 10)]
  }

  /** Reading back the text `toString` writes gives the number again. */
  lemma {:induction false} ParseNatToString(n: nat)
    ensures ParseDecimal(NatToString(n)) == n
  {
    var s := NatToString(n);
    if n >= 10 {
      assert s[..|s| - 1] == NatToString(n / 10);
      ParseNatToString(n / 10);
    } else {
      assert s[..|s| - 1] == [];
    }
  }

  lemma SeparatorAt(a: string, sep: string, r: string)
    ensures |sep| > 0 ==> (a + sep + r)[|a|] == sep[0]
  {
  }

  lemma DigitsBeforeSeparator(a: string, sep: string, r: string, a': string, r': string)
    requires AllDigits(a) && AllDigits(a')
    requires |sep| > 0 && !IsDigit(sep[0])
    requires a + sep + r == a' + sep + r'
    ensures |a'| <= |a|
  {
    if |a| < |a'| {
      SeparatorAt(a, sep, r);
      assert false;
    }
  }

  /** Two ways of writing the same text as digits, then a separator that starts
      with a non-digit, then anything, agree on the digits and on the rest. */
  lemma SplitAtSeparator(a: string, sep: string, r: string, a': string, r': string)
    requires AllDigits(a) && AllDigits(a')
    requires |sep| > 0 && !IsDigit(sep[0])
    requires a + sep + r == a' + sep + r'
    ensures a == a' && r == r'
  {
    DigitsBeforeSeparator(a, sep, r, a', r');
    DigitsBeforeSeparator(a', sep, r', a, r);
    var x := a + sep + r;
    assert a == x[..|a|] == a';
    assert r == x[|a| + |sep|..] == r';
  }
}
