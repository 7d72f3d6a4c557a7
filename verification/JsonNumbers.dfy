/** The grammar of numbers (RFC 8259, section 6), and that the reader accepts exactly its texts. */
module JsonNumbers {
  import opened Basics
  import opened JsonReader
  import Decimal

  /** A sign, an integer without leading zeros, a fraction and an exponent. */
  datatype Numeral = Numeral(negative: bool, whole: string, fraction: string, exponent: Option<Exponent>) {
    predicate Valid() {
      && whole != "" && AllDigits(whole) && (|whole| > 1 ==> whole[0] != '0') && AllDigits(fraction)
      && (exponent.Some? ==> exponent.value.Valid())
    }

    function Tail(): string { if exponent.Some? then exponent.value.Text() else "" }

    function Rest(): string { if fraction == "" then Tail() else "." + (fraction + Tail()) }

    function Text(): string { if negative then "-" + (whole + Rest()) else whole + Rest() }
  }

  datatype Exponent = Exponent(mark: char, sign: Option<char>, digits: string) {
    predicate Valid() {
      && (mark == 'e' || mark == 'E') && (sign.Some? ==> sign.value == '+' || sign.value == '-')
      && digits != "" && AllDigits(digits)
    }

    function Text(): string { [mark] + ((if sign.Some? then [sign.value] else "") + digits) }
  }

  lemma ExponentIsRead(e: Exponent)
    requires e.Valid()
    ensures IsExponent(e.Text()) && !IsDigit(e.Text()[0]) && e.Text()[0] != '.'
  {
    var t := e.Text();
    if e.sign.Some? {
      assert t[1] == e.sign.value && t[2..] == e.digits;
    } else {
      assert "" + e.digits == e.digits && t[1] == e.digits[0] && t[1..] == e.digits;
    }
  }

  lemma {:induction false} AllRun(digits: string)
    requires AllDigits(digits)
    ensures DigitRun(digits) == |digits|
  {
    if digits != "" {
      AllRun(digits[1..]);
    }
  }

  lemma RunThen(digits: string, rest: string)
    requires AllDigits(digits) && (rest != "" ==> !IsDigit(rest[0]))
    ensures DigitRun(digits + rest) == |digits| && (digits + rest)[|digits|..] == rest
  {
    DigitRunConcat(digits, rest);
    AllRun(digits);
  }

  lemma RestIsRead(n: Numeral)
    requires n.Valid()
    ensures IsFraction(n.Rest()) && (n.Rest() != "" ==> !IsDigit(n.Rest()[0]))
  {
    if n.exponent.Some? {
      ExponentIsRead(n.exponent.value);
    }
    if n.fraction != "" {
      RunThen(n.fraction, n.Tail());
      var t := n.Rest();
      assert t[1..] == n.fraction + n.Tail();
      assert t[1 + |n.fraction|..] == n.Tail();
    }
  }

  lemma NumeralIsRead(n: Numeral)
    requires n.Valid()
    ensures IsNumberText(n.Text())
  {
    RestIsRead(n);
    RunThen(n.whole, n.Rest());
    assert (n.whole + n.Rest())[0] == n.whole[0];
    if n.negative {
      assert n.Text()[1..] == n.whole + n.Rest();
    }
  }

  lemma ExponentOf(t: string) returns (e: Option<Exponent>)
    requires IsExponent(t)
    ensures e.Some? ==> e.value.Valid() && e.value.Text() == t
    ensures e.None? ==> t == ""
  {
    if t == "" {
      e := None;
    } else if |t| > 1 && (t[1] == '+' || t[1] == '-') {
      e := Some(Exponent(t[0], Some(t[1]), t[2..]));
      assert t == [t[0]] + ([t[1]] + t[2..]);
    } else {
      e := Some(Exponent(t[0], None, t[1..]));
      assert "" + t[1..] == t[1..] && t == [t[0]] + t[1..];
    }
  }

  function TailText(fraction: string, e: Option<Exponent>): string {
    Numeral(false, "0", fraction, e).Rest()
  }

  lemma FractionOf(t: string) returns (fraction: string, e: Option<Exponent>)
    requires IsFraction(t)
    ensures AllDigits(fraction) && (e.Some? ==> e.value.Valid()) && TailText(fraction, e) == t
  {
    if t != "" && t[0] == '.' {
      var f := DigitRun(t[1..]);
      e := ExponentOf(t[1 + f..]);
      fraction := t[1..][..f];
      DotParts(t, f);
    } else {
      e := ExponentOf(t);
      fraction := "";
    }
  }

  lemma DotParts(t: string, f: nat)
    requires |t| > f && t[0] == '.'
    ensures t == "." + (t[1..][..f] + t[1 + f..])
  {}

  lemma UnsignedOf(a: string, negative: bool) returns (n: Numeral)
    requires var d := DigitRun(a); d > 0 && (a[0] == '0' ==> d == 1) && IsFraction(a[d..])
    ensures n.Valid() && n.negative == negative && n.whole + n.Rest() == a
  {
    var d := DigitRun(a);
    var fraction, e := FractionOf(a[d..]);
    n := Numeral(negative, a[..d], fraction, e);
    SplitAt(a, d);
  }

  lemma NumeralOf(s: string) returns (n: Numeral)
    requires IsNumberText(s)
    ensures n.Valid() && n.Text() == s
  {
    if s[0] == '-' {
      n := UnsignedOf(s[1..], true);
      HeadTail(s);
    } else {
      n := UnsignedOf(s, false);
    }
  }

  /** The reader takes a text for a number exactly if the grammar produces it. */
  lemma NumbersAreExact(s: string)
    ensures IsNumberText(s) <==> exists n: Numeral :: n.Valid() && n.Text() == s
  {
    if IsNumberText(s) {
      var n := NumeralOf(s);
      assert n.Valid() && n.Text() == s;
    }
    forall n: Numeral | n.Valid() && n.Text() == s
      ensures IsNumberText(s)
    {
      NumeralIsRead(n);
    }
  }

  // -------------------------------------------------------------------------
  // Range
  // -------------------------------------------------------------------------

  lemma {:induction false} ScaledIsProduct(v: nat, n: nat)
    ensures Scaled(v, n) == v * Decimal.Pow10(n)
  {
    if n > 0 {
      ScaledIsProduct(v, n - 1);
      assert 10 * (v * Decimal.Pow10(n - 1)) == v * (10 * Decimal.Pow10(n - 1));
    }
  }

  /** The power of ten that the exponent stands for. */
  function Power(e: Option<Exponent>): int
    requires e.Some? ==> e.value.Valid()
  {
    match e
    case None => 0
    case Some(x) =>
      var n: int := Decimal.Value(x.digits);
      if x.sign == Some('-') then -n else n
  }

  lemma PowerIsRead(e: Exponent)
    requires e.Valid()
    ensures ExponentValue(e.Text()) == Power(Some(e))
  {
    var t := e.Text();
    AllRun(e.digits);
    assert e.digits[..|e.digits|] == e.digits;
    if e.sign.Some? {
      assert t[1] == e.sign.value && t[2..] == e.digits;
    } else {
      assert "" + e.digits == e.digits && t[1] == e.digits[0] && t[1..] == e.digits;
    }
  }

  /** How the reader takes a numeral apart. */
  lemma PartsAreRead(n: Numeral)
    requires n.Valid()
    ensures var a := n.whole + n.Rest();
      && DigitsOf(a) == n.whole && a[DigitRun(a)..] == n.Rest()
      && (if n.Rest() != "" && n.Rest()[0] == '.' then
            DigitsOf(n.Rest()[1..]) == n.fraction && n.Rest()[1 + |n.fraction|..] == n.Tail()
          else n.fraction == "" && n.Rest() == n.Tail())
  {
    RestIsRead(n);
    RunThen(n.whole, n.Rest());
    if n.exponent.Some? {
      ExponentIsRead(n.exponent.value);
    }
    if n.fraction != "" {
      RunThen(n.fraction, n.Tail());
      assert n.Rest()[1..] == n.fraction + n.Tail();
    }
  }

  lemma UnsignedText(n: Numeral)
    requires n.Valid()
    ensures var s := n.Text(); (if s != "" && s[0] == '-' then s[1..] else s) == n.whole + n.Rest()
  {
    if n.negative {
      assert n.Text()[1..] == n.whole + n.Rest();
    } else {
      assert n.Text()[0] == n.whole[0];
    }
  }

  lemma TailIsRead(n: Numeral)
    requires n.Valid()
    ensures ExponentValue(n.Tail()) == Power(n.exponent)
  {
    if n.exponent.Some? {
      PowerIsRead(n.exponent.value);
    }
  }

  lemma DecimalsAreRead(n: Numeral)
    requires n.Valid()
    ensures Decimals(n.Rest()) == (n.fraction, ExponentValue(n.Tail()) - |n.fraction|)
  {
    PartsAreRead(n);
  }

  lemma SignificandIsRead(n: Numeral)
    requires n.Valid()
    ensures Significand(n.Text()) == (n.whole + n.fraction, ExponentValue(n.Tail()) - |n.fraction|)
  {
    UnsignedText(n);
    PartsAreRead(n);
    DecimalsAreRead(n);
  }

  /** A bound on a product with a power of ten. */
  predicate ProductBelow(units: nat, power: int, bound: nat) {
    if power >= 0 then units * Decimal.Pow10(power) < bound else units < bound * Decimal.Pow10(-power)
  }

  lemma BelowMeans(units: nat, power: int, bound: nat)
    ensures Below(units, power, bound) <==> ProductBelow(units, power, bound)
  {
    if power >= 0 {
      ScaledIsProduct(units, power);
    } else {
      ScaledIsProduct(bound, -power);
    }
  }

  /** A numeral is in range exactly if its magnitude, its digits times a power of ten, stays below half
      a unit above the largest double. */
  lemma RangeIsExact(n: Numeral)
    requires n.Valid()
    ensures InRange(n.Text()) <==>
            ProductBelow(Decimal.Value(n.whole + n.fraction), Power(n.exponent) - |n.fraction|, OVERFLOW)
  {
    SignificandIsRead(n);
    TailIsRead(n);
    BelowMeans(Decimal.Value(n.whole + n.fraction), Power(n.exponent) - |n.fraction|, OVERFLOW);
  }
}
