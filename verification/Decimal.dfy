/** Decimal numerals, as the archive names and the award lines use them. */
module Decimal {

  predicate IsDigit(c: char) { '0' <= c <= '9' }

  predicate AllDigits(s: string) { forall i :: 0 <= i < |s| ==> IsDigit(s[i]) }

  function DigitChar(d: nat): (c: char)
    requires d < 10
    ensures IsDigit(c) && DigitValue(c) == d
  {
    ('0' as int + d) as char
  }

  function DigitValue(c: char): nat
    requires IsDigit(c)
  {
    c as int - '0' as int
  }

  /** The decimal numeral of n, without leading zeros. */
  function Itoa(n: nat): (s: string)
    ensures s != [] && AllDigits(s)
  {
    if n < 10 then [DigitChar(n)] else Itoa(n / 10) + [DigitChar(n % 10)]
  }

  /** The decimal numeral of any integer. */
  function Signed(n: int): string { if n < 0 then "-" + Itoa(-n) else Itoa(n) }

  /** The number a string of digits denotes. */
  function Value(s: string): nat
    requires AllDigits(s)
  {
    if s == [] then 0 else Value(s[..|s| - 1]) * 10 + DigitValue(s[|s| - 1])
  }

  lemma {:induction false} ValueItoa(n: nat)
    ensures Value(Itoa(n)) == n
  {
    if n >= 10 {
      ValueItoa(n / 10);
      assert Itoa(n)[..|Itoa(n)| - 1] == Itoa(n / 10);
    }
  }

  function Zeros(k: nat): string { seq(k, _ => '0') }

  /** At least `width` digits, padded with leading zeros. */
  function Padded(n: nat, width: nat): (s: string)
    ensures s != [] && AllDigits(s)
  {
    Zeros(if |Itoa(n)| < width then width - |Itoa(n)| else 0) + Itoa(n)
  }

  lemma {:induction false} ValueZeros(k: nat, s: string)
    requires AllDigits(s)
    ensures AllDigits(Zeros(k) + s) && Value(Zeros(k) + s) == Value(s)
    decreases |s|, k
  {
    if s != [] {
      var t := s[..|s| - 1];
      ValueZeros(k, t);
      assert (Zeros(k) + s)[..k + |s| - 1] == Zeros(k) + t;
    } else if k > 0 {
      ValueZeros(k - 1, []);
      assert (Zeros(k) + [])[..k - 1] == Zeros(k - 1) + [];
    }
  }

  /** Padding loses nothing: different numbers have different padded numerals. */
  lemma PaddedInjective(m: nat, n: nat, width: nat)
    requires Padded(m, width) == Padded(n, width)
    ensures m == n
  {
    ValuePadded(m, width);
    ValuePadded(n, width);
  }

  lemma ValuePadded(n: nat, width: nat)
    ensures Value(Padded(n, width)) == n
  {
    ValueItoa(n);
    ValueZeros(if |Itoa(n)| < width then width - |Itoa(n)| else 0, Itoa(n));
  }

  lemma {:induction false} ItoaShape(n: nat)
    ensures |Itoa(n)| > 1 ==> Itoa(n)[0] != '0'
  {
    if n >= 10 {
      ItoaShape(n / 10);
      assert Itoa(n)[0] == Itoa(n / 10)[0];
      if n / 10 < 10 {
        assert DigitValue(Itoa(n / 10)[0]) == n / 10 > 0;
      }
    }
  }

  /** A padded numeral denotes its number, is wide enough, and is no wider than it must be. */
  lemma PaddedExactly(n: nat, width: nat)
    ensures var s := Padded(n, width); Value(s) == n && |s| >= width && (|s| > width && |s| > 1 ==> s[0] != '0')
  {
    ValuePadded(n, width);
    ItoaShape(n);
  }
}
