/** Decimal text for natural numbers, as `Number.prototype.toString` and
    `String.prototype.padStart` produce it for integers from 0 up to (but
    not including) 10^21; from 10^21 on JavaScript writes exponent form. */
module Decimal {

  predicate IsDigit(c: char) {
    '0' <= c <= '9'
  }

  predicate AllDigits(s: string) {
    forall i :: 0 <= i < |s| ==> IsDigit(s[i])
  }

  function DigitChar(d: nat): (c: char)
    requires d < 10
    ensures IsDigit(c) && c as int - '0' as int == d
  {
    (d + '0' as int) as char
  }

  function DigitValue(c: char): (d: nat)
    requires IsDigit(c)
    ensures d < 10 && DigitChar(d) == c
  {
    c as int - '0' as int
  }

  /** The number a string of digits denotes, most significant digit first. */
  function Value(s: string): nat
    requires AllDigits(s)
    decreases |s|
  {
    if |s| == 0 then 0 else Value(s[..|s| - 1]) * 10 + DigitValue(s[|s| - 1])
  }

  /** The shortest decimal numeral of `n`. */
  function NatToString(n: nat): (s: string)
    ensures |s| > 0 && AllDigits(s)
    ensures |s| > 1 ==> s[0] != '0'
    ensures n < 10 <==> |s| == 1
    decreases n
  {
    if n < 10 then [DigitChar(n)] else NatToString(n / 10) + [DigitChar(n % 10)]
  }

  /** Reading the numeral back gives the number. */
  lemma {:induction false} ValueOfNatToString(n: nat)
    ensures Value(NatToString(n)) == n
    decreases n
  {
    if n >= 10 {
      ValueOfNatToString(n / 10);
      var s := NatToString(n);
      assert s[..|s| - 1] == NatToString(n / 10);
    }
  }

  /** A string of `n` copies of `c`. */
  function Repeat(c: char, n: nat): (s: string)
    ensures |s| == n && forall i :: 0 <= i < n ==> s[i] == c
  {
    seq(n, _ => c)
  }

  /** `s.padStart(n, c)`: `s` is kept as it is when it already has `n`
      characters or more, and otherwise prefixed with copies of `c` up to
      length `n`. */
  function PadStart(s: string, n: nat, c: char): (r: string)
    ensures |r| == if |s| >= n then |s| else n
    ensures r[|r| - |s|..] == s
    ensures forall i :: 0 <= i < |r| - |s| ==> r[i] == c
  {
    if |s| >= n then s else Repeat(c, n - |s|) + s
  }

  /** A leading zero does not change the value. */
  lemma {:induction false} LeadingZero(s: string)
    requires AllDigits(s)
    ensures AllDigits("0" + s) && Value("0" + s) == Value(s)
    decreases |s|
  {
    if |s| > 0 {
      var t := "0" + s;
      assert t[..|t| - 1] == "0" + s[..|s| - 1];
      LeadingZero(s[..|s| - 1]);
    }
  }
}
