/** Decimal digit strings: `str(n)` for sheet names, fixed-width fields for `strptime` and
    `strftime`, and the value of a run of digits. Only the ASCII digits are modelled. */
module Decimal {

  /** The smaller of two numbers. */
  function Min(a: int, b: int): int {
    if a <= b then a else b
  }

  predicate IsDigit(c: char) {
    '0' <= c <= '9'
  }

  predicate AllDigits(s: string) {
    forall i :: 0 <= i < |s| ==> IsDigit(s[i])
  }

  lemma DigitsAppend(a: string, b: string)
    requires AllDigits(a) && AllDigits(b)
    ensures AllDigits(a + b)
  {
    assert forall k :: |a| <= k < |a + b| ==> (a + b)[k] == b[k - |a|];
  }

  function DigitValue(c: char): nat
    requires IsDigit(c)
  {
    c as int - '0' as int
  }

  function DigitChar(d: nat): (c: char)
    requires d < 10
    ensures IsDigit(c) && DigitValue(c) == d
  {
    ('0' as int + d) as char
  }

  function Pow10(n: nat): (p: nat)
    ensures p >= 1
  {
    if n == 0 then 1 else 10 * Pow10(n - 1)
  }

  /** The number a string of digits denotes, most significant digit first (`int(s)`). */
  function Value(s: string): (v: nat)
    requires AllDigits(s)
    ensures v < Pow10(|s|)
  {
    if |s| == 0 then 0
    else
      var p := Value(s[..|s| - 1]);
      assert p <= Pow10(|s| - 1) - 1;
      p * 10 + DigitValue(s[|s| - 1])
  }

  /** `n` in exactly `width` digits: zero-padded on the left, as `%02d` and `%04d` print
      every value below `10^width`. */
  function Fixed(n: nat, width: nat): (s: string)
    ensures |s| == width && AllDigits(s)
  {
    if width == 0 then "" else Fixed(n / 10, width - 1) + [DigitChar(n % 10)]
  }

  /** `str(n)`: the shortest decimal form of `n`, without leading zeros. */
  function Show(n: nat): (s: string)
    ensures |s| >= 1 && AllDigits(s)
    ensures |s| > 1 ==> s[0] != '0'
  {
    if n < 10 then [DigitChar(n)] else Show(n / 10) + [DigitChar(n % 10)]
  }

  /** Reading a decimal form back gives the number that was shown. */
  lemma {:induction false} ShowValue(n: nat)
    ensures Value(Show(n)) == n
  {
    if n >= 10 {
      ShowValue(n / 10);
      var s := Show(n);
      assert s[..|s| - 1] == Show(n / 10);
    }
  }

  /** Distinct numbers have distinct decimal forms. */
  lemma ShowInjective(m: nat, n: nat)
    requires Show(m) == Show(n)
    ensures m == n
  {
    ShowValue(m);
    ShowValue(n);
  }

  /** Printing the value of a digit string at the string's own width gives the string back. */
  lemma {:induction false} FixedOfValue(s: string)
    requires AllDigits(s)
    ensures Fixed(Value(s), |s|) == s
  {
    if |s| > 0 {
      var p := s[..|s| - 1];
      FixedOfValue(p);
      assert Value(s) / 10 == Value(p);
      assert Value(s) % 10 == DigitValue(s[|s| - 1]);
      assert s == p + [s[|s| - 1]];
    }
  }

  /** Parsing a fixed-width print gives the number back when it fits in the width. */
  lemma {:induction false} ValueOfFixed(n: nat, width: nat)
    requires n < Pow10(width)
    ensures Value(Fixed(n, width)) == n
  {
    if width > 0 {
      ValueOfFixed(n / 10, width - 1);
      var s := Fixed(n, width);
      assert s[..|s| - 1] == Fixed(n / 10, width - 1);
    }
  }

  lemma TwoDigitValue(s: string)
    requires |s| == 2 && AllDigits(s)
    ensures Value(s) == 10 * DigitValue(s[0]) + DigitValue(s[1])
  {
    assert s[..1][..0] == "";
  }

  /** Four digits are their first two, hundredfold, plus their last two. */
  lemma FourDigitValue(s: string)
    requires |s| == 4 && AllDigits(s)
    ensures Value(s) == 100 * Value(s[..2]) + Value(s[2..])
  {
    assert s[..3][..2] == s[..2];
    assert s[2..] == s[2..3] + [s[3]];
    TwoDigitValue(s[2..]);
    assert Value(s[2..3]) == DigitValue(s[2]) by {
      assert s[2..3][..0] == "";
    }
  }
}
