/** Decimal numerals: Rust's `{n}` and `{n:0w}` formats and the value they denote. */
module Decimal {

  function Digit(d: nat): char
    requires d < 10
  {
    "0123456789"[d]
  }

  predicate IsDigit(c: char) {
    '0' <= c <= '9'
  }

  function DigitValue(c: char): nat
    requires IsDigit(c)
  {
    c as int - '0' as int
  }

  predicate AllDigits(s: string) {
    forall i :: 0 <= i < |s| ==> IsDigit(s[i])
  }

  /** `format!("{n}")`. */
  function Of(n: nat): string {
    if n < 10 then [Digit(n)] else Of(n / 10) + [Digit(n % 10)]
  }

  function Zeros(k: nat): string {
    seq(k, _ => '0')
  }

  /** `format!("{n:0w}")`: zeros on the left up to width `w`, never truncated. */
  function Padded(n: nat, w: nat): string {
    var s := Of(n);
    if |s| >= w then s else Zeros(w - |s|) + s
  }

  function Value(s: string): nat
    requires AllDigits(s)
  {
    if s == [] then 0 else 10 * Value(s[..|s| - 1]) + DigitValue(s[|s| - 1])
  }

  lemma DigitRoundTrip(d: nat)
    requires d < 10
    ensures IsDigit(Digit(d)) && DigitValue(Digit(d)) == d
  {
    assert d in {0, 1, 2, 3, 4, 5, 6, 7, 8, 9};
  }

  /** Reading back what was written. */
  lemma {:induction false} OfRoundTrip(n: nat)
    ensures AllDigits(Of(n)) && |Of(n)| >= 1 && Value(Of(n)) == n
  {
    DigitRoundTrip(n % 10);
    if n >= 10 {
      OfRoundTrip(n / 10);
      assert Of(n)[..|Of(n)| - 1] == Of(n / 10);
    }
  }

  lemma OfInjective(m: nat, n: nat)
    requires Of(m) == Of(n)
    ensures m == n
  {
    OfRoundTrip(m);
    OfRoundTrip(n);
  }

  lemma {:induction false} ZerosKeepValue(k: nat, s: string)
    requires AllDigits(s)
    ensures AllDigits(Zeros(k) + s) && Value(Zeros(k) + s) == Value(s)
    decreases |s|, k
  {
    var z := Zeros(k) + s;
    if s != [] {
      ZerosKeepValue(k, s[..|s| - 1]);
      assert z[..|z| - 1] == Zeros(k) + s[..|s| - 1];
    } else if k > 0 {
      ZerosKeepValue(k - 1, s);
      assert z[..|z| - 1] == Zeros(k - 1) + s;
    }
  }

  lemma PaddedRoundTrip(n: nat, w: nat)
    ensures AllDigits(Padded(n, w)) && Value(Padded(n, w)) == n && |Padded(n, w)| >= w
  {
    OfRoundTrip(n);
    if |Of(n)| < w { ZerosKeepValue(w - |Of(n)|, Of(n)); }
  }

  /** A number below 100 fills exactly two places. */
  lemma TwoDigits(n: nat)
    requires n < 100
    ensures |Padded(n, 2)| == 2
  {
    if n >= 10 { assert |Of(n / 10)| == 1; }
  }
}
