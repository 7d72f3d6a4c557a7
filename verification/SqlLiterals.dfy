/** How the tokenizer reads the literals that binding inserts, and what they denote. */
module SqlLiterals {
  import opened Basics
  import opened SqlLexer
  import opened SqlBinder
  import Decimal
  import Hex

  /** The tokens of a value's literal. */
  function LiteralTokens(p: Param): seq<Token> {
    match p
    case Null => [Word("NULL")]
    case Bool(b) => [Number(if b then "1" else "0")]
    case Int(n) => (if n < 0 then [Op("-")] else []) + [Number(Decimal.Print(Magnitude(n)))]
    case Real(r) => (if r.negative then [Op("-")] else []) + [Number(r.Magnitude())]
    case NaN => [Word("NULL")]
    case Infinite(positive) => if positive then [Number("9e999")] else [Op("-"), Number("9e999")]
    case Text(s) => [Str("'" + Escape(s) + "'")]
    case Blob(bytes) => [Token.Blob(Hex.BlobLiteral(bytes))]
  }

  function Magnitude(n: int): nat { if n < 0 then -n else n }

  predicate NulFree(p: Param) {
    p.Text? ==> forall i :: 0 <= i < |p.s| ==> !IsNul(p.s[i])
  }

  /** A character that may follow a literal without changing how the literal is read. */
  predicate RightSafe(c: char) { !IsIdChar(c) && c != '.' && c != '\'' }

  predicate RightSafeText(s: string) { s != "" ==> RightSafe(s[0]) }

  // -------------------------------------------------------------------------
  // Scanning literals
  // -------------------------------------------------------------------------

  lemma Next(st: State, c: char, s: string, t: State)
    requires !IsNul(c) && Extend(st, c) == Some((t, []))
    ensures Emit(st, [c] + s) == Emit(t, s)
  {
    EmitCons(st, c, s);
  }

  lemma First(c: char, s: string, t: State)
    requires !IsNul(c) && Begin(c) == (t, [])
    ensures Emit(INITIAL, [c] + s) == Emit(t, s)
  {
    EmitCons(INITIAL, c, s);
  }

  lemma {:induction false} ScanDigits(t: string, digits: string, b: string)
    requires AllDigits(digits)
    ensures Emit(State(Kind.Int, t), digits + b) == Emit(State(Kind.Int, t + digits), b)
    decreases |digits|
  {
    if digits == "" {
      assert digits + b == b && t + digits == t;
    } else {
      FirstThen(digits, b);
      Next(State(Kind.Int, t), digits[0], digits[1..] + b, State(Kind.Int, t + [digits[0]]));
      ScanDigits(t + [digits[0]], digits[1..], b);
      HeadTail(digits);
      Regroup(t, [digits[0]], digits[1..]);
    }
  }

  lemma ScanNumber(n: nat, b: string)
    requires RightSafeText(b)
    ensures Emit(INITIAL, Decimal.Print(n) + b) == [Number(Decimal.Print(n))] + Emit(INITIAL, b)
  {
    var d := Decimal.Print(n);
    FirstThen(d, b);
    if d[0] == '0' {
      assert d == "0";
      First('0', d[1..] + b, State(Zero, "0"));
      assert d[1..] + b == b;
      EmitFresh(State(Zero, "0"), b);
    } else {
      First(d[0], d[1..] + b, State(Kind.Int, [d[0]]));
      ScanDigits([d[0]], d[1..], b);
      assert [d[0]] + d[1..] == d;
      EmitFresh(State(Kind.Int, d), b);
    }
  }

  lemma ScanNegative(digits: string, b: string)
    requires digits != "" && IsDigit(digits[0])
    requires Emit(INITIAL, digits + b) == [Number(digits)] + Emit(INITIAL, b)
    ensures Emit(INITIAL, ("-" + digits) + b) == [Op("-"), Number(digits)] + Emit(INITIAL, b)
  {
    FirstThen("-" + digits, b);
    assert ("-" + digits)[1..] == digits;
    First('-', digits + b, State(Minus, "-"));
    EmitFresh(State(Minus, "-"), digits + b);
    Regroup([Op("-")], [Number(digits)], Emit(INITIAL, b));
    assert [Op("-")] + [Number(digits)] == [Op("-"), Number(digits)];
  }

  lemma ScanInt(n: int, b: string)
    requires RightSafeText(b)
    ensures Emit(INITIAL, Decimal.PrintInt(n) + b)
      == (if n < 0 then [Op("-")] else []) + [Number(Decimal.Print(Magnitude(n)))] + Emit(INITIAL, b)
  {
    var d := Decimal.Print(Magnitude(n));
    ScanNumber(Magnitude(n), b);
    assert [] + [Number(d)] == [Number(d)];
    assert [Op("-")] + [Number(d)] == [Op("-"), Number(d)];
    if n < 0 {
      ScanNegative(d, b);
    }
  }

  lemma {:induction false} ScanMoreDigits(kind: Kind, t: string, digits: string, b: string)
    requires (kind == Frac || kind == Exp) && AllDigits(digits)
    ensures Emit(State(kind, t), digits + b) == Emit(State(kind, t + digits), b)
    decreases |digits|
  {
    if digits == "" {
      assert digits + b == b && t + digits == t;
    } else {
      FirstThen(digits, b);
      Next(State(kind, t), digits[0], digits[1..] + b, State(kind, t + [digits[0]]));
      ScanMoreDigits(kind, t + [digits[0]], digits[1..], b);
      assert (t + [digits[0]]) + digits[1..] == t + digits;
    }
  }

  predicate Whole(kind: Kind) { kind == Zero || kind == Kind.Int }

  lemma ScanWhole(whole: string, b: string) returns (kind: Kind)
    requires whole != "" && AllDigits(whole) && (|whole| > 1 ==> whole[0] != '0')
    ensures Whole(kind) && Emit(INITIAL, whole + b) == Emit(State(kind, whole), b)
  {
    FirstThen(whole, b);
    kind := if whole[0] == '0' then Zero else Kind.Int;
    First(whole[0], whole[1..] + b, State(kind, [whole[0]]));
    assert [whole[0]] + whole[1..] == whole;
    if kind == Zero {
      assert whole == "0" && whole[1..] + b == b;
    } else {
      ScanDigits([whole[0]], whole[1..], b);
    }
  }

  lemma ScanFraction(kind: Kind, t: string, fraction: string, b: string)
    requires Whole(kind) && AllDigits(fraction)
    ensures Emit(State(kind, t), ("." + fraction) + b) == Emit(State(Frac, t + ("." + fraction)), b)
  {
    assert ("." + fraction) + b == ['.'] + (fraction + b);
    Next(State(kind, t), '.', fraction + b, State(Frac, t + ['.']));
    ScanMoreDigits(Frac, t + ['.'], fraction, b);
    assert (t + ['.']) + fraction == t + ("." + fraction);
  }

  lemma ScanPlainExponent(t: string, digits: string, b: string)
    requires digits != "" && AllDigits(digits)
    ensures Emit(State(ExpMark, t), digits + b) == Emit(State(Exp, t + digits), b)
  {
    FirstThen(digits, b);
    Next(State(ExpMark, t), digits[0], digits[1..] + b, State(Exp, t + [digits[0]]));
    ScanMoreDigits(Exp, t + [digits[0]], digits[1..], b);
    HeadTail(digits);
    Regroup(t, [digits[0]], digits[1..]);
  }

  lemma ScanSignedExponent(t: string, sign: char, digits: string, b: string)
    requires (sign == '+' || sign == '-') && digits != "" && AllDigits(digits)
    ensures Emit(State(ExpMark, t), [sign] + (digits + b)) == Emit(State(Exp, (t + [sign]) + digits), b)
  {
    var u := t + [sign];
    Next(State(ExpMark, t), sign, digits + b, State(ExpSign, u));
    FirstThen(digits, b);
    Next(State(ExpSign, u), digits[0], digits[1..] + b, State(Exp, u + [digits[0]]));
    ScanMoreDigits(Exp, u + [digits[0]], digits[1..], b);
    HeadTail(digits);
    Regroup(u, [digits[0]], digits[1..]);
  }

  lemma ScanExponentText(t: string, exponent: string, b: string)
    requires IsExponent(exponent)
    ensures Emit(State(ExpMark, t), exponent + b) == Emit(State(Exp, t + exponent), b)
  {
    if exponent[0] == '+' || exponent[0] == '-' {
      FirstThen(exponent, b);
      ScanSignedExponent(t, exponent[0], exponent[1..], b);
      HeadTail(exponent);
      Regroup(t, [exponent[0]], exponent[1..]);
    } else {
      ScanPlainExponent(t, exponent, b);
    }
  }

  lemma ScanExponent(kind: Kind, t: string, exponent: string, b: string)
    requires (Whole(kind) || kind == Frac) && IsExponent(exponent)
    ensures Emit(State(kind, t), ("e" + exponent) + b) == Emit(State(Exp, t + ("e" + exponent)), b)
  {
    assert ("e" + exponent) + b == ['e'] + (exponent + b);
    Next(State(kind, t), 'e', exponent + b, State(ExpMark, t + ['e']));
    ScanExponentText(t + ['e'], exponent, b);
    assert (t + ['e']) + exponent == t + ("e" + exponent);
  }

  lemma NumberEnds(kind: Kind, t: string, b: string)
    requires (Whole(kind) || kind == Frac || kind == Exp) && RightSafeText(b)
    ensures Emit(State(kind, t), b) == [Number(t)] + Emit(INITIAL, b)
  {
    EmitFresh(State(kind, t), b);
  }

  lemma ScanAnyFraction(kind: Kind, t: string, fraction: string, b: string) returns (after: Kind)
    requires Whole(kind) && AllDigits(fraction)
    ensures var f := if fraction == "" then "" else "." + fraction;
      (Whole(after) || after == Frac) && Emit(State(kind, t), f + b) == Emit(State(after, t + f), b)
  {
    if fraction == "" {
      after := kind;
      assert "" + b == b && t + "" == t;
    } else {
      after := Frac;
      ScanFraction(kind, t, fraction, b);
    }
  }

  lemma ScanAnyExponent(kind: Kind, t: string, exponent: string, b: string)
    requires (Whole(kind) || kind == Frac) && (exponent != "" ==> IsExponent(exponent)) && RightSafeText(b)
    ensures var e := if exponent == "" then "" else "e" + exponent;
      Emit(State(kind, t), e + b) == [Number(t + e)] + Emit(INITIAL, b)
  {
    if exponent == "" {
      assert "" + b == b && t + "" == t;
      NumberEnds(kind, t, b);
    } else {
      ScanExponent(kind, t, exponent, b);
      NumberEnds(Exp, t + ("e" + exponent), b);
    }
  }

  lemma ScanMagnitude(r: Finite, b: string)
    requires RightSafeText(b)
    ensures Emit(INITIAL, r.Magnitude() + b) == [Number(r.Magnitude())] + Emit(INITIAL, b)
  {
    var f := if r.fraction == "" then "" else "." + r.fraction;
    var e := if r.exponent == "" then "" else "e" + r.exponent;
    Regroup(r.whole, f + e, b);
    Regroup(f, e, b);
    var kind := ScanWhole(r.whole, f + (e + b));
    var after := ScanAnyFraction(kind, r.whole, r.fraction, e + b);
    ScanAnyExponent(after, r.whole + f, r.exponent, b);
    Regroup(r.whole, f, e);
  }

  lemma ScanReal(r: Finite, b: string)
    requires RightSafeText(b)
    ensures Emit(INITIAL, r.Text() + b) == LiteralTokens(Param.Real(r)) + Emit(INITIAL, b)
  {
    ScanMagnitude(r, b);
    var d := r.Magnitude();
    assert [] + [Number(d)] == [Number(d)];
    assert [Op("-")] + [Number(d)] == [Op("-"), Number(d)];
    if r.negative {
      assert d[0] == r.whole[0];
      ScanNegative(d, b);
    }
  }

  lemma ScanNull(b: string)
    requires RightSafeText(b)
    ensures Emit(INITIAL, "NULL" + b) == [Word("NULL")] + Emit(INITIAL, b)
  {
    assert "NULL" + b == ['N'] + (['U'] + (['L'] + (['L'] + b)));
    assert "N" + ['U'] == "NU" && "NU" + ['L'] == "NUL" && "NUL" + ['L'] == "NULL";
    First('N', ['U'] + (['L'] + (['L'] + b)), State(Name, "N"));
    Next(State(Name, "N"), 'U', ['L'] + (['L'] + b), State(Name, "NU"));
    Next(State(Name, "NU"), 'L', ['L'] + b, State(Name, "NUL"));
    Next(State(Name, "NUL"), 'L', b, State(Name, "NULL"));
    EmitFresh(State(Name, "NULL"), b);
  }

  lemma InfinityParts(b: string)
    ensures "9e999" + b == "9" + (("e" + "999") + b)
    ensures "9" + ("e" + "999") == "9e999"
  {}

  lemma ScanInfinity(b: string)
    requires RightSafeText(b)
    ensures Emit(INITIAL, "9e999" + b) == [Number("9e999")] + Emit(INITIAL, b)
  {
    InfinityParts(b);
    var kind := ScanWhole("9", ("e" + "999") + b);
    ScanExponent(kind, "9", "999", b);
    NumberEnds(Exp, "9e999", b);
  }

  lemma ScanEscapedChar(t: string, c: char, more: string)
    requires t != "" && t[0] == '\'' && !IsNul(c)
    ensures Emit(State(InQuote, t), Escape([c]) + more) == Emit(State(InQuote, t + Escape([c])), more)
  {
    assert [c][1..] == "";
    if c == '\'' {
      assert Escape([c]) == "''";
      assert "''" + more == ['\''] + (['\''] + more);
      Next(State(InQuote, t), '\'', ['\''] + more, State(QuoteEnd, t + ['\'']));
      Next(State(QuoteEnd, t + ['\'']), '\'', more, State(InQuote, t + ['\''] + ['\'']));
      assert t + ['\''] + ['\''] == t + "''";
    } else {
      assert Escape([c]) == [c];
      Next(State(InQuote, t), c, more, State(InQuote, t + [c]));
    }
  }

  lemma EscapeFirst(s: string)
    requires s != ""
    ensures Escape(s) == Escape([s[0]]) + Escape(s[1..])
  {
    assert [s[0]][1..] == "";
  }

  lemma {:induction false} ScanEscaped(t: string, s: string, b: string)
    requires t != "" && t[0] == '\''
    requires forall i :: 0 <= i < |s| ==> !IsNul(s[i])
    requires b != "" ==> b[0] != '\''
    ensures Emit(State(InQuote, t), Escape(s) + (['\''] + b))
      == [Str(t + Escape(s) + "'")] + Emit(INITIAL, b)
    decreases |s|
  {
    if s == "" {
      assert Escape(s) + (['\''] + b) == ['\''] + b;
      Next(State(InQuote, t), '\'', b, State(QuoteEnd, t + ['\'']));
      EmitFresh(State(QuoteEnd, t + ['\'']), b);
      assert t + Escape(s) + "'" == t + ['\''];
    } else {
      EscapeFirst(s);
      var e, rest := Escape([s[0]]), Escape(s[1..]);
      Regroup(e, rest, ['\''] + b);
      ScanEscapedChar(t, s[0], rest + (['\''] + b));
      ScanEscaped(t + e, s[1..], b);
      Regroup(t, e, rest);
    }
  }

  /** A text literal is self-delimiting: scanning stops exactly where it ends. */
  lemma ScanText(s: string, b: string)
    requires forall i :: 0 <= i < |s| ==> !IsNul(s[i])
    requires b != "" ==> b[0] != '\''
    ensures Emit(INITIAL, "'" + Escape(s) + "'" + b) == [Str("'" + Escape(s) + "'")] + Emit(INITIAL, b)
  {
    Quoted(Escape(s), b);
    First('\'', Escape(s) + (['\''] + b), State(InQuote, "'"));
    ScanEscaped("'", s, b);
  }

  lemma Quoted(e: string, b: string)
    ensures "'" + e + "'" + b == ['\''] + (e + (['\''] + b))
  {}

  lemma {:induction false} ScanHex(t: string, h: string, b: string)
    requires Hex.AllHex(h)
    ensures Emit(State(BlobBody, t), h + b) == Emit(State(BlobBody, t + h), b)
    decreases |h|
  {
    if h == "" {
      assert h + b == b && t + h == t;
    } else {
      FirstThen(h, b);
      Next(State(BlobBody, t), h[0], h[1..] + b, State(BlobBody, t + [h[0]]));
      ScanHex(t + [h[0]], h[1..], b);
      assert (t + [h[0]]) + h[1..] == t + h;
    }
  }

  lemma BlobParts(h: string, b: string)
    ensures ("X'" + h + "'") + b == ['X'] + (['\''] + (h + (['\''] + b)))
    ensures "X" + ['\''] == "X'" && "X'" + h + ['\''] == "X'" + h + "'"
  {}

  lemma BlobEnds(t: string, b: string)
    requires |t| % 2 == 0
    ensures Emit(State(BlobBody, t), ['\''] + b) == [Token.Blob(t + ['\''])] + Emit(INITIAL, b)
  {
    EmitCons(State(BlobBody, t), '\'', b);
  }

  lemma ScanBlobBody(t: string, h: string, b: string)
    requires Hex.AllHex(h) && |t + h| % 2 == 0
    ensures Emit(State(BlobBody, t), h + (['\''] + b)) == [Token.Blob(t + h + ['\''])] + Emit(INITIAL, b)
  {
    ScanHex(t, h, ['\''] + b);
    BlobEnds(t + h, b);
  }

  lemma ScanBlob(bytes: seq<Octet>, b: string)
    ensures Emit(INITIAL, Hex.BlobLiteral(bytes) + b) == [Token.Blob(Hex.BlobLiteral(bytes))] + Emit(INITIAL, b)
  {
    var h := Hex.Encode(bytes);
    BlobParts(h, b);
    var rest := h + (['\''] + b);
    First('X', ['\''] + rest, State(LoneX, "X"));
    Next(State(LoneX, "X"), '\'', rest, State(BlobBody, "X'"));
    ScanBlobBody("X'", h, b);
  }

  /** Whatever the value, its literal is read as its tokens and nothing around it is touched. */
  lemma ScanLiteral(p: Param, b: string)
    requires NulFree(p) && RightSafeText(b)
    ensures Emit(INITIAL, Literal(p) + b) == LiteralTokens(p) + Emit(INITIAL, b)
  {
    match p {
      case Null => ScanNull(b);
      case Bool(v) =>
        assert Decimal.Print(if v then 1 else 0) == (if v then "1" else "0");
        ScanNumber(if v then 1 else 0, b);
      case Int(n) => ScanInt(n, b);
      case Real(r) => ScanReal(r, b);
      case NaN => ScanNull(b);
      case Infinite(positive) =>
        ScanInfinity(b);
        if !positive {
          ScanNegative("9e999", b);
          assert "-" + "9e999" == "-9e999";
        }
      case Text(s) => ScanText(s, b);
      case Blob(bytes) => ScanBlob(bytes, b);
    }
  }

  // -------------------------------------------------------------------------
  // What literals denote
  // -------------------------------------------------------------------------

  /** A real is known by its text. */
  datatype SqlValue =
    | SqlNull
    | SqlInt(n: I64)
    | SqlReal(text: string)
    | SqlInfinity(positive: bool)
    | SqlText(s: string)
    | SqlBlob(bytes: seq<Octet>)

  /** SQLite has no booleans and reads NaN as NULL. A finite float that its client prints without
      fraction or exponent arrives as an integer, if it fits one. */
  function ValueOf(p: Param): SqlValue {
    match p
    case Null => SqlNull
    case Bool(b) => SqlInt(if b then 1 else 0)
    case Int(n) => SqlInt(n)
    case Real(r) =>
      if r.fraction == "" && r.exponent == "" then WholeNumber(r.whole, r.negative) else SqlReal(r.Text())
    case NaN => SqlNull
    case Infinite(positive) => SqlInfinity(positive)
    case Text(s) => SqlText(s)
    case Blob(bytes) => SqlBlob(bytes)
  }

  /** Undo the doubling of quotes. */
  function Unescape(s: string): string {
    if s == "" then ""
    else if s[0] == '\'' && |s| > 1 && s[1] == '\'' then "'" + Unescape(s[2..])
    else [s[0]] + Unescape(s[1..])
  }

  function Signed(m: nat, negative: bool): int {
    var k: int := m;
    if negative then -k else k
  }

  /** Digits are an integer if it fits 64 bits, and otherwise a real. */
  function WholeNumber(digits: string, negative: bool): SqlValue
    requires AllDigits(digits)
  {
    var n := Signed(Decimal.Value(digits), negative);
    if I64_MIN <= n <= I64_MAX then SqlInt(n) else SqlReal(if negative then "-" + digits else digits)
  }

  function NumberValue(text: string, negative: bool): SqlValue {
    if text == "9e999" then SqlInfinity(!negative)
    else if AllDigits(text) then WholeNumber(text, negative)
    else SqlReal(if negative then "-" + text else text)
  }

  /** The literal rules of SQLite's expression syntax, read backwards from tokens. */
  function Denote(tokens: seq<Token>): Option<SqlValue> {
    if |tokens| == 1 then
      match tokens[0]
      case Word(text) => if text == "NULL" then Some(SqlNull) else None
      case Number(text) => Some(NumberValue(text, false))
      case Str(text) => if |text| >= 2 then Some(SqlText(Unescape(text[1..|text| - 1]))) else None
      case Blob(text) =>
        (match Hex.RustDecode(text)
         case Some(bytes) => Some(SqlBlob(bytes))
         case None => None)
      case _ => None
    else if |tokens| == 2 && tokens[0] == Op("-") && tokens[1].Number? then Some(NumberValue(tokens[1].text, true))
    else None
  }

  lemma {:induction false} UnescapeEscape(s: string)
    ensures Unescape(Escape(s)) == s
  {
    if s != "" {
      UnescapeEscape(s[1..]);
      assert Escape(s)[if s[0] == '\'' then 2 else 1..] == Escape(s[1..]);
      assert [s[0]] + s[1..] == s;
    }
  }

  lemma PrintedNumberDenotes(m: nat, negative: bool)
    requires I64_MIN <= Signed(m, negative) <= I64_MAX
    ensures NumberValue(Decimal.Print(m), negative) == SqlInt(Signed(m, negative))
  {
    Decimal.ValuePrint(m);
    assert "9e999"[1] == 'e' && !IsDigit('e');
  }

  lemma IntDenotes(n: I64)
    ensures Denote((if n < 0 then [Op("-")] else []) + [Number(Decimal.Print(Magnitude(n)))]) == Some(SqlInt(n))
  {
    PrintedNumberDenotes(Magnitude(n), n < 0);
    var d := Decimal.Print(Magnitude(n));
    assert [] + [Number(d)] == [Number(d)];
    assert [Op("-")] + [Number(d)] == [Op("-"), Number(d)];
  }

  lemma NotInfinity(whole: string, exponent: string)
    requires whole != "" && AllDigits(whole) && !(whole == "9" && exponent == "999")
    ensures whole + ("e" + exponent) != "9e999"
  {
    var d := whole + ("e" + exponent);
    if |whole| > 1 {
      assert d[1] == whole[1] && "9e999"[1] == 'e';
    } else {
      assert d[0] == whole[0] && d[2..] == exponent && "9e999"[2..] == "999";
      assert whole == [whole[0]];
    }
  }

  /** The text of a finite float is not that of infinity, and is all digits only if whole. */
  lemma RealText(r: Finite)
    ensures r.Magnitude() != "9e999"
    ensures AllDigits(r.Magnitude()) <==> r.fraction == "" && r.exponent == ""
  {
    var d, n := r.Magnitude(), |r.whole|;
    assert "9e999"[1] == 'e' && "9e999"[0] == '9';
    if r.fraction != "" {
      assert d[n] == '.' && forall i :: 0 <= i < 5 ==> "9e999"[i] != '.';
    } else if r.exponent != "" {
      assert d == r.whole + ("e" + r.exponent) && d[n] == 'e';
      NotInfinity(r.whole, r.exponent);
    } else {
      assert d == r.whole;
    }
  }

  lemma RealDenotes(r: Finite)
    ensures Denote(LiteralTokens(Param.Real(r))) == Some(ValueOf(Param.Real(r)))
  {
    RealText(r);
    var d := r.Magnitude();
    assert r.fraction == "" && r.exponent == "" ==> d == r.whole;
    assert [] + [Number(d)] == [Number(d)];
    assert [Op("-")] + [Number(d)] == [Op("-"), Number(d)];
  }

  lemma TextDenotes(s: string)
    ensures Denote([Str("'" + Escape(s) + "'")]) == Some(SqlText(s))
  {
    UnescapeEscape(s);
    assert ("'" + Escape(s) + "'")[1..|Escape(s)| + 1] == Escape(s);
  }

  lemma BoolDenotes(b: bool)
    ensures Denote([Number(if b then "1" else "0")]) == Some(SqlInt(if b then 1 else 0))
  {
    PrintedNumberDenotes(if b then 1 else 0, false);
    assert Decimal.Print(1) == "1" && Decimal.Print(0) == "0";
  }

  lemma BlobDenotes(bytes: seq<Octet>)
    ensures Denote([Token.Blob(Hex.BlobLiteral(bytes))]) == Some(SqlBlob(bytes))
  {
    Hex.BlobRoundTrip(bytes);
  }

  lemma SpecialsDenote()
    ensures Denote([Word("NULL")]) == Some(SqlNull)
    ensures Denote([Number("9e999")]) == Some(SqlInfinity(true))
    ensures Denote([Op("-"), Number("9e999")]) == Some(SqlInfinity(false))
  {}

  /** The inserted literal denotes the bound value. */
  lemma LiteralDenotesValue(p: Param)
    ensures Denote(LiteralTokens(p)) == Some(ValueOf(p))
  {
    SpecialsDenote();
    match p {
      case Null =>
      case Bool(b) => BoolDenotes(b);
      case Int(n) => IntDenotes(n);
      case Real(r) => RealDenotes(r);
      case NaN =>
      case Infinite(positive) =>
      case Text(s) => TextDenotes(s);
      case Blob(bytes) => BlobDenotes(bytes);
    }
  }
}
