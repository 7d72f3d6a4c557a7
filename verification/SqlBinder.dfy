/** Client-side parameter binding in the Rust client: `?` and `?N` in a template are replaced by
    escaped literals in one left-to-right pass that keeps a counter. Templates are ASCII, so that
    `\d` is an ASCII digit. */
module SqlBinder {
  import opened Basics
  import Decimal
  import Hex

  /** A finite float as a client prints it; two clients may print the same float differently.
      Infinity has a text of its own, which no finite float prints as. */
  datatype Printed = Printed(negative: bool, whole: string, fraction: string, exponent: string) {
    predicate Valid() {
      && whole != "" && AllDigits(whole) && (|whole| > 1 ==> whole[0] != '0') && AllDigits(fraction)
      && (exponent != "" ==> IsExponent(exponent))
      && !(whole == "9" && fraction == "" && exponent == "999")
    }

    function Magnitude(): string {
      whole + ((if fraction == "" then "" else "." + fraction) + (if exponent == "" then "" else "e" + exponent))
    }

    function Text(): string { if negative then "-" + Magnitude() else Magnitude() }
  }

  /** Digits after an optional sign. */
  predicate IsExponent(s: string) {
    s != "" && (if s[0] == '+' || s[0] == '-' then |s| > 1 && AllDigits(s[1..]) else AllDigits(s))
  }

  type Finite = r: Printed | r.Valid() witness Printed(false, "0", "", "")

  /** A bound value. */
  datatype Param =
    | Null
    | Bool(b: bool)
    | Int(n: I64)
    | Real(r: Finite)
    | NaN
    | Infinite(positive: bool)
    | Text(s: string)
    | Blob(bytes: seq<Octet>)

  /** Double every single quote. */
  function Escape(s: string): string {
    if s == "" then ""
    else (if s[0] == '\'' then "''" else [s[0]]) + Escape(s[1..])
  }

  function Literal(p: Param): string {
    match p
    case Null => "NULL"
    case Bool(b) => if b then "1" else "0"
    case Int(n) => Decimal.PrintInt(n)
    case Real(r) => r.Text()
    case NaN => "NULL"
    case Infinite(positive) => if positive then "9e999" else "-9e999"
    case Text(s) => "'" + Escape(s) + "'"
    case Blob(bytes) => Hex.BlobLiteral(bytes)
  }

  // -------------------------------------------------------------------------
  // Matches of \?(\d+)|\?
  // -------------------------------------------------------------------------

  /** The front of a template: a placeholder with all its digits, or one character between
      placeholders. */
  predicate IsFront(m: string) {
    m != "" && (if m[0] == '?' then AllDigits(m[1..]) else |m| == 1)
  }

  function Width(sql: string): (w: nat)
    requires sql != ""
    ensures 1 <= w <= |sql| && IsFront(sql[..w])
    ensures sql[0] == '?' && w < |sql| ==> !IsDigit(sql[w])
  {
    if sql[0] != '?' then 1
    else
      var k := DigitRun(sql[1..]);
      assert sql[..1 + k][1..] == sql[1..][..k];
      1 + k
  }

  // -------------------------------------------------------------------------
  // The Rust client
  // -------------------------------------------------------------------------

  /** `digits.parse::<usize>().unwrap_or(0)`: too large a number reads as zero. */
  function RustIndex(digits: string): nat
    requires AllDigits(digits)
  {
    if Decimal.Value(digits) < USIZE_LIMIT then Decimal.Value(digits) else 0
  }

  /** Which of `n` parameters a front takes, if any. */
  function RustPick(m: string, next: nat, n: nat): (r: Option<nat>)
    requires IsFront(m)
    ensures r.Some? ==> r.value < n
  {
    if m[0] != '?' then None
    else if |m| > 1 then
      var index := RustIndex(m[1..]);
      if 1 <= index <= n then Some(index - 1) else None
    else if next < n then Some(next)
    else None
  }

  function RustReplaced(m: string, params: seq<Param>, next: nat): string
    requires IsFront(m)
  {
    match RustPick(m, next, |params|)
    case Some(i) => Literal(params[i])
    case None => m
  }

  function Advance(m: string, params: seq<Param>, next: nat): nat {
    if m == "?" && next < |params| then next + 1 else next
  }

  /** The replacement pass from the counter value `next` on. */
  function RustBind(sql: string, params: seq<Param>, next: nat): string
    decreases |sql|
  {
    if sql == "" then ""
    else
      var m := sql[..Width(sql)];
      RustReplaced(m, params, next) + RustBind(sql[Width(sql)..], params, Advance(m, params, next))
  }

  /** The closure given to `replace_all`: what the match is rendered as at rank `next`, and the
      counter after it. */
  method Replace(m: string, params: seq<Param>, next: nat) returns (text: string, after: nat)
    requires IsFront(m) && m[0] == '?' && |params| < USIZE_LIMIT
    ensures text == Render(m, next, params) && after == Advance(m, params, next)
  {
    after := next;
    if |m| > 1 {
      var index := RustIndex(m[1..]);
      if index >= 1 && index <= |params| {
        text := Literal(params[index - 1]);
      } else {
        text := m;
      }
    } else if next < |params| {
      text := Literal(params[next]);
      after := next + 1;
    } else {
      text := "?";
    }
  }

  /** `replace_all` with the captured counter; `rest` is what is still to be scanned. Every
      placeholder is rendered by its rank or its number, everything else is kept. */
  method Bind(sql: string, params: seq<Param>) returns (out: string)
    requires |params| < USIZE_LIMIT
    ensures out == RustBind(sql, params, 0)
    ensures out == RenderAll(Cut(sql), params, 0)
  {
    ghost var goal := RustBind(sql, params, 0);
    out := "";
    var next, rest := 0, sql;
    while rest != ""
      invariant goal == out + RustBind(rest, params, next)
      decreases |rest|
    {
      var m := rest[..Width(rest)];
      BindFront(rest, params, next);
      rest := rest[Width(rest)..];
      Regroup(out, RustReplaced(m, params, next), RustBind(rest, params, Advance(m, params, next)));
      ReplacedIsRendered(m, params, next);
      var piece := m;
      if m[0] == '?' {
        piece, next := Replace(m, params, next);
      }
      out := out + piece;
    }
    assert out + "" == out;
    BindIsDeclarative(sql, params, 0);
  }

  lemma BindFront(sql: string, params: seq<Param>, next: nat)
    requires sql != ""
    ensures var m := sql[..Width(sql)];
      RustBind(sql, params, next)
      == RustReplaced(m, params, next) + RustBind(sql[Width(sql)..], params, Advance(m, params, next))
  {}

  lemma NothingReplaced(m: string)
    requires IsFront(m)
    ensures RustReplaced(m, [], 0) == m && Advance(m, [], 0) == 0
  {
    if m[0] == '?' && |m| == 1 {
      assert m == "?";
    }
  }

  lemma FrontUnchanged(sql: string)
    requires sql != "" && RustBind(sql[Width(sql)..], [], 0) == sql[Width(sql)..]
    ensures RustBind(sql, [], 0) == sql
  {
    BindFront(sql, [], 0);
    Unchanged(sql[..Width(sql)], sql[Width(sql)..]);
    SplitAt(sql, Width(sql));
  }

  lemma Unchanged(m: string, rest: string)
    requires IsFront(m) && RustBind(rest, [], 0) == rest
    ensures RustReplaced(m, [], 0) + RustBind(rest, [], Advance(m, [], 0)) == m + rest
  {
    NothingReplaced(m);
  }

  /** `query` skips binding when there are no parameters; binding would change nothing. */
  lemma {:induction false} NoParamsNoChange(sql: string)
    ensures RustBind(sql, [], 0) == sql
    decreases |sql|
  {
    if sql != "" {
      NoParamsNoChange(sql[Width(sql)..]);
      FrontUnchanged(sql);
    }
  }

  // -------------------------------------------------------------------------
  // The declarative form
  // -------------------------------------------------------------------------

  /** A template cut into placeholders and the characters between them. */
  function Cut(sql: string): (fronts: seq<string>)
    ensures forall i :: 0 <= i < |fronts| ==> IsFront(fronts[i])
    decreases |sql|
  {
    if sql == "" then [] else [sql[..Width(sql)]] + Cut(sql[Width(sql)..])
  }

  /** How many bare placeholders stand before position `i`. */
  function Rank(fronts: seq<string>, i: nat): nat
    requires i <= |fronts|
  {
    if i == 0 then 0 else IsBare(fronts[0]) + Rank(fronts[1..], i - 1)
  }

  function IsBare(m: string): nat { if m == "?" then 1 else 0 }

  /** What a front becomes, given its rank among the bare placeholders: bare placeholder
      number k takes parameter k, `?N` takes parameter N, and whatever has no parameter stays. */
  function Render(m: string, rank: nat, params: seq<Param>): string {
    match Choice(m, rank, |params|)
    case Some(i) => Literal(params[i])
    case None => m
  }

  function Choice(m: string, rank: nat, n: nat): (r: Option<nat>)
    ensures r.Some? ==> r.value < n
  {
    if m == "?" then if rank < n then Some(rank) else None
    else if m != "" && m[0] == '?' && AllDigits(m[1..]) && 1 <= Decimal.Value(m[1..]) <= n then
      Some(Decimal.Value(m[1..]) - 1)
    else None
  }

  lemma PickIsChoice(m: string, rank: nat, n: nat)
    requires IsFront(m) && n < USIZE_LIMIT
    ensures RustPick(m, rank, n) == Choice(m, rank, n)
  {
    if m[0] == '?' && |m| == 1 {
      assert m == "?";
    }
  }

  lemma ReplacedIsRendered(m: string, params: seq<Param>, rank: nat)
    requires IsFront(m) && |params| < USIZE_LIMIT
    ensures RustReplaced(m, params, rank) == Render(m, rank, params)
  {
    PickIsChoice(m, rank, |params|);
  }

  /** Apply `f` to every front and its rank. */
  function Each(f: (string, nat) -> string, fronts: seq<string>, base: nat): seq<string> {
    seq(|fronts|, i requires 0 <= i < |fronts| => f(fronts[i], base + Rank(fronts, i)))
  }

  function RenderAll(fronts: seq<string>, params: seq<Param>, base: nat): string {
    Flatten(Each((m: string, rank: nat) => Render(m, rank, params), fronts, base))
  }

  lemma EachCons(f: (string, nat) -> string, m: string, fronts: seq<string>, base: nat)
    ensures Each(f, [m] + fronts, base) == [f(m, base)] + Each(f, fronts, base + IsBare(m))
  {
    var all := [m] + fronts;
    assert all[1..] == fronts;
    forall i | 0 <= i < |all|
      ensures Each(f, all, base)[i] == ([f(m, base)] + Each(f, fronts, base + IsBare(m)))[i]
    {
      if i > 0 {
        assert Rank(all, i) == IsBare(m) + Rank(fronts, i - 1);
      }
    }
  }

  lemma RenderCons(m: string, fronts: seq<string>, params: seq<Param>, base: nat)
    ensures RenderAll([m] + fronts, params, base)
      == Render(m, base, params) + RenderAll(fronts, params, base + IsBare(m))
  {
    var f := (m: string, rank: nat) => Render(m, rank, params);
    EachCons(f, m, fronts, base);
    assert ([f(m, base)] + Each(f, fronts, base + IsBare(m)))[1..] == Each(f, fronts, base + IsBare(m));
  }

  function Capped(n: nat, bound: nat): nat { if n < bound then n else bound }

  /** The counting pass refines the declarative form. */
  lemma {:induction false} BindIsDeclarative(sql: string, params: seq<Param>, base: nat)
    requires |params| < USIZE_LIMIT
    ensures RustBind(sql, params, Capped(base, |params|)) == RenderAll(Cut(sql), params, base)
    decreases |sql|
  {
    if sql != "" {
      var m := sql[..Width(sql)];
      RenderCons(m, Cut(sql[Width(sql)..]), params, base);
      BindIsDeclarative(sql[Width(sql)..], params, base + IsBare(m));
      assert Advance(m, params, Capped(base, |params|)) == Capped(base + IsBare(m), |params|);
      assert RustReplaced(m, params, Capped(base, |params|)) == Render(m, base, params);
    }
  }

  // -------------------------------------------------------------------------
  // Splitting a template
  // -------------------------------------------------------------------------

  /** The template ends in `?` or `?N`, so a digit after it would be absorbed. */
  predicate EndsInPlaceholder(sql: string) {
    sql != "" &&
    var last := |sql| - 1;
    sql[last] == '?' || (IsDigit(sql[last]) && EndsInPlaceholder(sql[..last]))
  }

  lemma {:induction false} PlaceholderEnds(m: string)
    requires IsFront(m) && m[0] == '?'
    ensures EndsInPlaceholder(m)
  {
    var last := |m| - 1;
    if last > 0 {
      assert m[..last][1..] == m[1..][..last - 1] && m[last] == m[1..][last - 1];
      PlaceholderEnds(m[..last]);
    }
  }

  lemma {:induction false} SuffixEnds(sql: string, n: nat)
    requires n <= |sql| && EndsInPlaceholder(sql[n..])
    ensures EndsInPlaceholder(sql)
    decreases |sql|
  {
    var last := |sql| - 1;
    assert sql[n..][|sql[n..]| - 1] == sql[last];
    if sql[last] != '?' {
      assert sql[n..][..last - n] == sql[..last][n..];
      SuffixEnds(sql[..last], n);
    }
  }

  predicate CutsPlaceholder(a: string, b: string) {
    EndsInPlaceholder(a) && b != "" && IsDigit(b[0])
  }

  /** The counter after binding `sql`. */
  function After(sql: string, params: seq<Param>, next: nat): nat
    decreases |sql|
  {
    if sql == "" then next
    else After(sql[Width(sql)..], params, Advance(sql[..Width(sql)], params, next))
  }

  lemma WidthConcat(a: string, b: string)
    requires a != "" && !CutsPlaceholder(a, b)
    ensures Width(a + b) == Width(a)
    ensures !CutsPlaceholder(a[Width(a)..], b)
  {
    var w := Width(a);
    if a[0] == '?' {
      assert (a + b)[1..] == a[1..] + b;
      if w == |a| {
        assert a[..w] == a;
        PlaceholderEnds(a);
      }
      DigitRunConcat(a[1..], b);
    }
    if EndsInPlaceholder(a[w..]) {
      SuffixEnds(a, w);
    }
  }

  lemma ConcatFront(a: string, b: string, params: seq<Param>, next: nat, last: nat)
    requires a != "" && Width(a + b) == Width(a)
    requires var after := Advance(a[..Width(a)], params, next);
      RustBind(a[Width(a)..] + b, params, after) == RustBind(a[Width(a)..], params, after) + RustBind(b, params, last)
    ensures RustBind(a + b, params, next) == RustBind(a, params, next) + RustBind(b, params, last)
  {
    var m, rest := a[..Width(a)], a[Width(a)..];
    BindFront(a, params, next);
    SliceConcat(a, b, Width(a));
    BindFront(a + b, params, next);
    Regroup(RustReplaced(m, params, next), RustBind(rest, params, Advance(m, params, next)), RustBind(b, params, last));
  }

  lemma ConcatNothing(b: string, params: seq<Param>, next: nat)
    ensures RustBind("" + b, params, next) == RustBind("", params, next) + RustBind(b, params, After("", params, next))
  {
    assert "" + b == b;
  }

  /** Binding a template in two parts binds the whole, if the cut goes through no placeholder
      and the second part starts at the counter the first part leaves. */
  lemma {:induction false} BindConcat(a: string, b: string, params: seq<Param>, next: nat)
    requires !CutsPlaceholder(a, b)
    ensures RustBind(a + b, params, next)
      == RustBind(a, params, next) + RustBind(b, params, After(a, params, next))
    decreases |a|
  {
    if a == "" {
      ConcatNothing(b, params, next);
    } else {
      WidthConcat(a, b);
      BindConcat(a[Width(a)..], b, params, Advance(a[..Width(a)], params, next));
      ConcatFront(a, b, params, next, After(a, params, next));
    }
  }
}
