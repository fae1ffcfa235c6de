/** Decimal digit strings: strconv.Itoa, the zero-padded fields of time
    formatting, and the digit values read back by the time-code parser. */
module Decimal {

  predicate IsDigit(c: char) {
    '0' <= c <= '9'
  }

  predicate AllDigits(s: string) {
    forall i :: 0 <= i < |s| ==> IsDigit(s[i])
  }

  function DigitChar(d: nat): (c: char)
    requires d < 10
    ensures IsDigit(c) && c as int - '0' as int == d
  {
    ('0' as int + d) as char
  }

  function DigitValue(c: char): (d: nat)
    requires IsDigit(c)
    ensures d < 10 && DigitChar(d) == c
  {
    c as int - '0' as int
  }

  function Pow10(n: nat): (r: nat)
    ensures r >= 1
  {
    if n == 0 then 1 else 10 * Pow10(n - 1)
  }

  /** The value of a digit string, most significant digit first. */
  function ValueOf(s: string): (v: nat)
    requires AllDigits(s)
    ensures v < Pow10(|s|)
  {
    if s == [] then 0 else 10 * ValueOf(s[..|s| - 1]) + DigitValue(s[|s| - 1])
  }

  /** The lowest `width` decimal digits of n, zero-padded on the left. */
  function DigitsOf(n: nat, width: nat): (s: string)
    ensures |s| == width && AllDigits(s)
  {
    if width == 0 then [] else DigitsOf(n / 10, width - 1) + [DigitChar(n % 10)]
  }

  /** The number of decimal digits strconv.Itoa writes for n. */
  function NumDigits(n: nat): (k: nat)
    ensures 1 <= k && n < Pow10(k)
    ensures k > 1 ==> Pow10(k - 1) <= n
  {
    if n < 10 then 1 else 1 + NumDigits(n / 10)
  }

  /** strconv.Itoa (and fmt's %d) of a non-negative integer. */
  function Itoa(n: nat): (s: string)
    ensures AllDigits(s) && 1 <= |s|
    ensures n == 0 ==> s == "0"
  {
    DigitsOf(n, NumDigits(n))
  }

  /** Go's time-format helper appendInt(b, x, width): the decimal digits of x,
      zero-padded to at least `width`, with a leading '-' for a negative x. */
  function Pad(x: int, width: nat): (s: string)
    ensures 0 <= x ==> AllDigits(s)
  {
    var u: nat := if x < 0 then -x else x;
    var digits := if u < Pow10(width) then DigitsOf(u, width) else Itoa(u);
    if x < 0 then "-" + digits else digits
  }

  /** appendInt of a value that fits the width is its zero-padded digits, which read back as it. */
  lemma PadFits(x: nat, width: nat)
    requires x < Pow10(width)
    ensures Pad(x, width) == DigitsOf(x, width)
    ensures |Pad(x, width)| == width && AllDigits(Pad(x, width)) && ValueOf(Pad(x, width)) == x
  {
    ValueOfDigitsOf(x, width);
  }

  lemma {:induction false} ValueOfDigitsOf(n: nat, width: nat)
    requires n < Pow10(width)
    ensures ValueOf(DigitsOf(n, width)) == n
  {
    if width > 0 {
      var s := DigitsOf(n, width);
      ValueOfDigitsOf(n / 10, width - 1);
      assert s[..|s| - 1] == DigitsOf(n / 10, width - 1);
    }
  }

  lemma {:induction false} DigitsOfValueOf(s: string)
    requires AllDigits(s)
    ensures DigitsOf(ValueOf(s), |s|) == s
  {
    if s != [] {
      var init := s[..|s| - 1];
      DigitsOfValueOf(init);
      assert s == init + [s[|s| - 1]];
    }
  }

  /** Reading back what Itoa writes gives the number: Itoa is injective. */
  lemma ItoaRoundTrip(n: nat)
    ensures ValueOf(Itoa(n)) == n
  {
    ValueOfDigitsOf(n, NumDigits(n));
  }

  lemma ItoaInjective(m: nat, n: nat)
    requires m != n
    ensures Itoa(m) != Itoa(n)
  {
    ItoaRoundTrip(m);
    ItoaRoundTrip(n);
  }

  /** Itoa writes no redundant leading zero. */
  lemma {:induction false} ItoaNoLeadingZero(n: nat)
    requires 0 < n
    ensures Itoa(n)[0] != '0'
  {
    var k := NumDigits(n);
    if k > 1 {
      var s := Itoa(n);
      if s[0] == '0' {
        LeadingZeroBound(s);
        ValueOfDigitsOf(n, k);
        assert false;
      }
    }
  }

  lemma {:induction false} LeadingZeroBound(s: string)
    requires AllDigits(s) && |s| >= 1 && s[0] == '0'
    ensures ValueOf(s) < Pow10(|s| - 1)
  {
    if |s| > 1 {
      LeadingZeroBound(s[..|s| - 1]);
    }
  }
}
