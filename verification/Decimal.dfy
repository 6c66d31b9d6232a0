/** Decimal notation: the digits that `%d` prints and that the three number readers accept. */
module Decimal {

  predicate Int32(i: int) { -0x8000_0000 <= i < 0x8000_0000 }

  predicate IsDigit(c: char) { '0' <= c <= '9' }

  predicate AllDigits(s: string) { forall i :: 0 <= i < |s| ==> IsDigit(s[i]) }

  function DigitVal(c: char): (d: nat)
    requires IsDigit(c)
    ensures d < 10
  {
    (c as int) - ('0' as int)
  }

  function DigitChar(d: nat): (c: char)
    requires d < 10
    ensures IsDigit(c) && DigitVal(c) == d
  {
    (('0' as int) + d) as char
  }

  /** The number a digit string denotes. */
  function ValueOf(s: string): nat
    requires AllDigits(s)
  {
    if s == "" then 0 else 10 * ValueOf(s[..|s| - 1]) + DigitVal(s[|s| - 1])
  }

  /** The digits `%d` prints for a non-negative number. */
  function Text(n: nat): string {
    if n < 10 then [DigitChar(n)] else Text(n / 10) + [DigitChar(n % 10)]
  }

  /** Positional notation, by the codes of the characters; there are ten digits. */
  lemma DigitsDenote(s: string, c: char)
    requires AllDigits(s)
    ensures IsDigit(c) <==> c in "0123456789"
    ensures IsDigit(c) ==> AllDigits(s + [c]) && ValueOf(s + [c]) == 10 * ValueOf(s) + (c as int) - 0x30
    ensures ValueOf("") == 0
  {
    var digits := "0123456789";
    if IsDigit(c) {
      assert digits[(c as int) - 0x30] == c;
      assert (s + [c])[..|s|] == s;
    }
  }

  /** The characters `%d` prints for any number. */
  function SignedText(i: int): string {
    if i < 0 then "-" + Text(-i) else Text(i)
  }

  lemma {:induction false} TextDenotes(n: nat)
    ensures Text(n) != "" && AllDigits(Text(n)) && ValueOf(Text(n)) == n
    ensures |Text(n)| > 1 ==> Text(n)[0] != '0'
  {
    if n < 10 {
      assert ValueOf([DigitChar(n)][..0]) == 0;
    } else {
      TextDenotes(n / 10);
      var t := Text(n);
      assert t[..|t| - 1] == Text(n / 10);
      if n / 10 < 10 { assert DigitVal(DigitChar(n / 10)) != 0; }
    }
  }

  /** A number below 10^k has at most k digits. */
  lemma {:induction false} TextLength(n: nat, k: nat)
    requires 0 < k && n < Pow10(k)
    ensures |Text(n)| <= k
  {
    if n < 10 {
    } else {
      TextLength(n / 10, k - 1);
    }
  }

  function Pow10(k: nat): nat { if k == 0 then 1 else 10 * Pow10(k - 1) }
}
