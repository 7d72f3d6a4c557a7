/** Decimal text of natural numbers, as `to_string` prints it and `parse` reads it. */
module Decimal {
  import opened Basics

  function DigitChar(d: nat): (c: char)
    requires d < 10
    ensures IsDigit(c)
  {
    '0' + d as char
  }

  function DigitValue(c: char): (d: nat)
    requires IsDigit(c)
    ensures d < 10
  {
    (c - '0') as int
  }

  /** Canonical decimal text: no leading zero except for zero itself. */
  function Print(n: nat): (s: string)
    ensures |s| > 0 && AllDigits(s)
    ensures |s| > 1 ==> s[0] != '0'
    ensures n > 0 ==> s[0] != '0'
  {
    if n < 10 then [DigitChar(n)] else Print(n / 10) + [DigitChar(n % 10)]
  }

  /** Value of a digit string; leading zeros are allowed. */
  function Value(s: string): (n: nat)
    requires AllDigits(s)
  {
    if s == "" then 0 else Value(s[..|s| - 1]) * 10 + DigitValue(s[|s| - 1])
  }

  predicate Canonical(s: string) {
    |s| > 0 && AllDigits(s) && (|s| > 1 ==> s[0] != '0')
  }

  function Pow10(n: nat): nat { if n == 0 then 1 else 10 * Pow10(n - 1) }

  /** Digits count by their place: each stands for a power of ten, and `0` to `9` for themselves. */
  lemma {:induction false} ValueIsPositional(s: string, c: char, t: string)
    requires AllDigits(s) && IsDigit(c) && AllDigits(t)
    ensures Value("") == 0
    ensures Value(s + [c] + t) == Value(s) * Pow10(|t| + 1) + (c as int - '0' as int) * Pow10(|t|) + Value(t)
    decreases |t|
  {
    var whole := s + [c] + t;
    if t == "" {
      assert whole == s + [c] && whole[..|s|] == s;
    } else {
      var n := |t| - 1;
      ValueIsPositional(s, c, t[..n]);
      assert whole[..|whole| - 1] == s + [c] + t[..n];
      Shifted(Value(s), Pow10(n + 1), c as int - '0' as int, Pow10(n), Value(t[..n]), DigitValue(t[n]));
    }
  }

  lemma Shifted(a: nat, p: nat, b: nat, q: nat, v: nat, d: nat)
    ensures (a * p + b * q + v) * 10 + d == a * (10 * p) + b * (10 * q) + (v * 10 + d)
  {}

  lemma {:induction false} ValuePrint(n: nat)
    ensures Value(Print(n)) == n
  {
    if n >= 10 {
      ValuePrint(n / 10);
      assert Print(n)[..|Print(n)| - 1] == Print(n / 10);
    } else {
      assert Print(n)[..0] == "";
    }
  }

  lemma {:induction false} PrintValue(s: string)
    requires Canonical(s)
    ensures Print(Value(s)) == s
  {
    var front := s[..|s| - 1];
    assert s == front + [s[|s| - 1]];
    if front == "" {
      assert Value("") == 0;
    } else {
      assert Canonical(front);
      PrintValue(front);
      PositiveValue(front);
    }
  }

  lemma {:induction false} PositiveValue(s: string)
    requires |s| > 0 && AllDigits(s) && s[0] != '0'
    ensures Value(s) > 0
  {
    if |s| > 1 {
      PositiveValue(s[..|s| - 1]);
    }
  }

  /** `i64::to_string` and Python's `str` of an integer. */
  function PrintInt(n: int): string {
    if n < 0 then "-" + Print(-n) else Print(n)
  }
}
