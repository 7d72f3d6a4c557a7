/** Small vocabulary shared by every component: optional values, character classes,
    and splitting or joining strings. */
module Basics {

  datatype Option<+T> = None | Some(value: T)

  type Octet = b: int | 0 <= b < 256

  const I64_MIN: int := -0x8000_0000_0000_0000
  const I64_MAX: int := 0x7fff_ffff_ffff_ffff
  type I64 = n: int | I64_MIN <= n <= I64_MAX

  const U32_LIMIT: int := 0x1_0000_0000
  const USIZE_LIMIT: int := 0x1_0000_0000_0000_0000

  predicate IsDigit(c: char) { '0' <= c <= '9' }

  predicate IsLetter(c: char) { 'a' <= c <= 'z' || 'A' <= c <= 'Z' }

  predicate IsAlnum(c: char) { IsDigit(c) || IsLetter(c) }

  predicate IsHexDigit(c: char) { IsDigit(c) || 'a' <= c <= 'f' || 'A' <= c <= 'F' }

  /** The value of a hexadecimal digit of either case. */
  function HexDigitValue(c: char): (n: nat)
    requires IsHexDigit(c)
    ensures n < 16
  {
    if IsDigit(c) then c as int - '0' as int
    else if c >= 'a' then c as int - 'a' as int + 10
    else c as int - 'A' as int + 10
  }

  function Lower(c: char): char {
    if 'A' <= c <= 'Z' then c - 'A' + 'a' else c
  }

  function LowerAll(s: string): string {
    seq(|s|, i requires 0 <= i < |s| => Lower(s[i]))
  }

  lemma LowersTo(text: string, lower: string)
    requires |text| == |lower| && forall i :: 0 <= i < |text| ==> Lower(text[i]) == lower[i]
    ensures LowerAll(text) == lower
  {}

  /** Unicode White_Space, which `str::trim` strips. */
  predicate IsBlank(c: char) {
    var n := c as int;
    9 <= n <= 13 || n == 0x20 || n == 0x85 || n == 0xa0 || n == 0x1680 || 0x2000 <= n <= 0x200a
    || n == 0x2028 || n == 0x2029 || n == 0x202f || n == 0x205f || n == 0x3000
  }

  predicate IsBlankText(s: string) { forall i :: 0 <= i < |s| ==> IsBlank(s[i]) }

  predicate AllDigits(s: string) { forall i :: 0 <= i < |s| ==> IsDigit(s[i]) }

  /** Length of the longest prefix of `s` that consists of ASCII digits. */
  function DigitRun(s: string): (n: nat)
    ensures n <= |s| && AllDigits(s[..n])
    ensures n < |s| ==> !IsDigit(s[n])
  {
    if s == "" || !IsDigit(s[0]) then 0
    else
      var n := DigitRun(s[1..]);
      assert s[..n + 1] == [s[0]] + s[1..][..n];
      n + 1
  }

  lemma {:induction false} DigitRunConcat(a: string, b: string)
    requires DigitRun(a) < |a| || b == "" || !IsDigit(b[0])
    ensures DigitRun(a + b) == DigitRun(a)
  {
    if a == "" {
      assert a + b == b;
    } else {
      assert (a + b)[1..] == a[1..] + b;
      if IsDigit(a[0]) {
        DigitRunConcat(a[1..], b);
      }
    }
  }

  function Flatten<T>(ss: seq<seq<T>>): seq<T> {
    if ss == [] then [] else ss[0] + Flatten(ss[1..])
  }

  lemma Regroup<T>(a: seq<T>, b: seq<T>, c: seq<T>)
    ensures a + (b + c) == (a + b) + c
  {}

  lemma FirstThen<T>(a: seq<T>, b: seq<T>)
    requires a != []
    ensures a + b == [a[0]] + (a[1..] + b)
  {}

  lemma HeadTail<T>(a: seq<T>)
    requires a != []
    ensures a == [a[0]] + a[1..]
  {}

  lemma SplitAt<T>(s: seq<T>, n: nat)
    requires n <= |s|
    ensures s == s[..n] + s[n..]
  {}

  lemma SliceConcat<T>(a: seq<T>, b: seq<T>, n: nat)
    requires n <= |a|
    ensures (a + b)[..n] == a[..n] && (a + b)[n..] == a[n..] + b
  {}

  lemma CutFirst<T>(a: seq<T>, b: seq<T>, n: nat)
    requires n <= |a|
    ensures a + b == a[..n] + (a[n..] + b)
  {}

  /** The pieces of `s` between occurrences of `sep`; always at least one piece. */
  function Split(s: string, sep: char): (parts: seq<string>)
    ensures |parts| >= 1
    ensures forall i :: 0 <= i < |parts| ==> sep !in parts[i]
  {
    if s == "" then [""]
    else
      var rest := Split(s[1..], sep);
      if s[0] == sep then [""] + rest else [[s[0]] + rest[0]] + rest[1..]
  }

  function Join(parts: seq<string>, sep: string): string {
    if |parts| == 0 then ""
    else if |parts| == 1 then parts[0]
    else parts[0] + sep + Join(parts[1..], sep)
  }

  lemma {:induction false} SplitCons(head: string, tail: string, sep: char)
    requires sep !in head
    ensures Split(head, sep) == [head]
    ensures Split(head + [sep] + tail, sep) == [head] + Split(tail, sep)
  {
    var whole := head + [sep] + tail;
    if head == "" {
      assert whole[1..] == tail;
    } else {
      assert head[1..] + [sep] + tail == whole[1..];
      SplitCons(head[1..], tail, sep);
      assert [head[0]] + head[1..] == head;
    }
  }

  /** Joining inverts splitting. */
  lemma {:induction false} JoinSplit(s: string, sep: char)
    ensures Join(Split(s, sep), [sep]) == s
  {
    if s != "" {
      JoinSplit(s[1..], sep);
      var rest := Split(s[1..], sep);
      var parts := Split(s, sep);
      if s[0] == sep {
        assert parts[1..] == rest;
        assert s == [sep] + s[1..];
      } else {
        assert parts[1..] == rest[1..];
        assert s == [s[0]] + s[1..];
      }
    }
  }

  // -------------------------------------------------------------------------
  // Powers of two
  // -------------------------------------------------------------------------

  function Pow2(n: nat): (p: nat)
    ensures p > 0
  {
    if n == 0 then 1 else 2 * Pow2(n - 1)
  }

  lemma Pow2Small()
    ensures Pow2(0) == 1 && Pow2(1) == 2 && Pow2(2) == 4 && Pow2(3) == 8 && Pow2(4) == 16
    ensures Pow2(5) == 32 && Pow2(6) == 64 && Pow2(7) == 128 && Pow2(8) == 256
  {
    assert Pow2(3) == 8;
    assert Pow2(6) == 64;
  }

  lemma {:induction false} Pow2Add(m: nat, n: nat)
    ensures Pow2(m + n) == Pow2(m) * Pow2(n)
  {
    if m > 0 {
      Pow2Add(m - 1, n);
    }
  }

  /** The machine's word sizes. */
  lemma WordSizes()
    ensures U32_LIMIT == Pow2(32) && USIZE_LIMIT == Pow2(64)
    ensures I64_MAX == Pow2(63) - 1 && I64_MIN + Pow2(63) == 0
  {
    Pow2Small();
    Pow2Add(8, 8);
    Pow2Add(16, 16);
    Pow2Add(32, 32);
    assert Pow2(64) == 2 * Pow2(63);
  }
}
