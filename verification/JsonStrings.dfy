/** The grammar of strings (RFC 8259, section 7), and that the reader accepts exactly its texts and
    gives the characters they stand for. */
module JsonStrings {
  import opened Basics
  import opened JsonReader
  import JsonText

  /** A character as it is, a letter after a backslash, four digits, or a pair of surrogates. */
  datatype Unit =
    | Plain(c: char)
    | Short(letter: char)
    | Code(digits: string)
    | Surrogates(high: string, low: string)

  /** A hexadecimal numeral of four digits. */
  predicate IsQuad(digits: string) {
    |digits| == 4 && IsHexDigit(digits[0]) && IsHexDigit(digits[1]) && IsHexDigit(digits[2]) && IsHexDigit(digits[3])
  }

  function HexValue(digits: string): nat
    requires forall i :: 0 <= i < |digits| ==> IsHexDigit(digits[i])
  {
    if digits == "" then 0 else 16 * HexValue(digits[..|digits| - 1]) + HexDigitValue(digits[|digits| - 1])
  }

  /** The letters, and the code points they stand for in the same order. */
  const LETTERS := ['"', '\\', '/', 'b', 'f', 'n', 'r', 't']
  const POINTS := [0x22, 0x5c, 0x2f, 0x08, 0x0c, 0x0a, 0x0d, 0x09]

  predicate Valid(u: Unit) {
    match u
    case Plain(c) => c as int >= 0x20 && c as int != 0x22 && c as int != 0x5c
    case Short(letter) => letter in LETTERS
    case Code(digits) => IsQuad(digits) && !(0xd800 <= HexValue(digits) < 0xe000)
    case Surrogates(high, low) =>
      IsQuad(high) && IsQuad(low) && 0xd800 <= HexValue(high) < 0xdc00 && 0xdc00 <= HexValue(low) < 0xe000
  }

  function Text(u: Unit): string {
    match u
    case Plain(c) => [c]
    case Short(letter) => ['\\', letter]
    case Code(digits) => ['\\', 'u'] + digits
    case Surrogates(high, low) => (['\\', 'u'] + high) + (['\\', 'u'] + low)
  }

  /** The code point that a unit stands for. */
  predicate StandsFor(u: Unit, point: nat)
    requires Valid(u)
  {
    match u
    case Plain(c) => point == c as int
    case Short(letter) => exists i :: 0 <= i < 8 && LETTERS[i] == letter && POINTS[i] == point
    case Code(digits) => point == HexValue(digits)
    case Surrogates(high, low) =>
      point == 0x1_0000 + 0x400 * (HexValue(high) - 0xd800) + (HexValue(low) - 0xdc00)
  }

  lemma QuadIsRead(digits: string, s: string, i: nat)
    requires IsQuad(digits) && i + 6 <= |s| && s[i..i + 6] == ['\\', 'u'] + digits
    ensures IsHexEscape(s, i) && HexCode(s, i) == HexValue(digits)
  {
    var t := s[i..i + 6];
    assert t[0] == s[i] && t[1] == s[i + 1] && t[2] == s[i + 2];
    assert t[3] == s[i + 3] && t[4] == s[i + 4] && t[5] == s[i + 5];
    QuadValue(digits);
  }

  lemma QuadValue(digits: string)
    requires IsQuad(digits)
    ensures HexValue(digits) == 0x1000 * HexDigitValue(digits[0]) + 0x100 * HexDigitValue(digits[1])
      + 0x10 * HexDigitValue(digits[2]) + HexDigitValue(digits[3])
  {
    var (three, two, one) := (digits[..3], digits[..2], digits[..1]);
    assert three[..2] == two && two[..1] == one && one[..0] == "";
    assert HexValue(one) == 16 * HexValue("") + HexDigitValue(one[0]);
    assert HexValue(two) == 16 * HexValue(one) + HexDigitValue(two[1]);
    assert HexValue(three) == 16 * HexValue(two) + HexDigitValue(three[2]);
  }

  /** A unit of the grammar is read as one unit, for its character. */
  lemma UnitIsRead(u: Unit, c: char)
    requires Valid(u) && StandsFor(u, c as int)
    ensures JsonText.Denotes(Text(u), c)
  {
    match u
    case Plain(_) =>
    case Short(letter) => ShortIsRead(letter, c);
    case Code(digits) => CodeIsRead(digits, c);
    case Surrogates(high, low) => SurrogatesAreRead(high, low, c);
  }

  lemma ShortIsRead(letter: char, c: char)
    requires letter in LETTERS && StandsFor(Short(letter), c as int)
    ensures JsonText.Denotes(['\\', letter], c)
  {}

  lemma CodeIsRead(digits: string, c: char)
    requires Valid(Code(digits)) && StandsFor(Code(digits), c as int)
    ensures JsonText.Denotes(['\\', 'u'] + digits, c)
  {
    var s := ['\\', 'u'] + digits;
    assert s[0..6] == s && s[1] == 'u';
    QuadIsRead(digits, s, 0);
  }

  lemma SurrogatesAreRead(high: string, low: string, c: char)
    requires Valid(Surrogates(high, low)) && StandsFor(Surrogates(high, low), c as int)
    ensures JsonText.Denotes((['\\', 'u'] + high) + (['\\', 'u'] + low), c)
  {
    var s := (['\\', 'u'] + high) + (['\\', 'u'] + low);
    assert s[0..6] == ['\\', 'u'] + high && s[6..12] == ['\\', 'u'] + low && s[1] == 'u';
    QuadIsRead(high, s, 0);
    QuadIsRead(low, s, 6);
  }

  // -------------------------------------------------------------------------
  // The unit that has been read
  // -------------------------------------------------------------------------

  /** The unit prints the front of the text and stands for the character read. */
  ghost predicate IsFront(u: Unit, raw: string)
    requires UnitLength(raw) > 0
  {
    Valid(u) && Text(u) == raw[..UnitLength(raw)] && StandsFor(u, JsonText.UnitChar(raw) as int)
  }

  lemma ShortOf(raw: string) returns (u: Unit)
    requires UnitLength(raw) == 2
    ensures IsFront(u, raw)
  {
    u := Short(raw[1]);
    var i :| 0 <= i < 8 && LETTERS[i] == raw[1];
    assert LETTERS[i] == raw[1] && POINTS[i] == JsonText.UnitChar(raw) as int;
  }

  lemma DigitsAt(raw: string, i: nat) returns (digits: string)
    requires IsHexEscape(raw, i)
    ensures IsQuad(digits) && raw[i..i + 6] == ['\\', 'u'] + digits && HexCode(raw, i) == HexValue(digits)
  {
    digits := raw[i + 2..i + 6];
    assert raw[i..i + 6] == [raw[i], raw[i + 1]] + digits;
    QuadIsRead(digits, raw, i);
  }

  lemma CodeOf(raw: string) returns (u: Unit)
    requires UnitLength(raw) == 6
    ensures IsFront(u, raw)
  {
    var digits := DigitsAt(raw, 0);
    u := Code(digits);
    assert raw[0..6] == raw[..6];
  }

  lemma SurrogatesOf(raw: string) returns (u: Unit)
    requires UnitLength(raw) == 12
    ensures IsFront(u, raw)
  {
    var high := DigitsAt(raw, 0);
    var low := DigitsAt(raw, 6);
    u := Surrogates(high, low);
    assert raw[..12] == raw[0..6] + raw[6..12];
  }

  lemma UnitOf(raw: string) returns (u: Unit)
    requires UnitLength(raw) > 0
    ensures IsFront(u, raw)
  {
    var n := UnitLength(raw);
    if n == 1 {
      u := Plain(raw[0]);
      assert raw[..1] == [raw[0]];
    } else if n == 2 {
      u := ShortOf(raw);
    } else if n == 6 {
      u := CodeOf(raw);
    } else {
      u := SurrogatesOf(raw);
    }
  }

  // -------------------------------------------------------------------------
  // Whole strings
  // -------------------------------------------------------------------------

  function Texts(units: seq<Unit>): string {
    if units == [] then "" else Text(units[0]) + Texts(units[1..])
  }

  /** One unit for each character. */
  ghost predicate Spells(units: seq<Unit>, s: string) {
    |units| == |s| && forall i :: 0 <= i < |s| ==> Valid(units[i]) && StandsFor(units[i], s[i] as int)
  }

  lemma {:induction false} UnitsAreRead(units: seq<Unit>, s: string)
    requires Spells(units, s)
    ensures IsBody(Texts(units)) && JsonText.Resolve(Texts(units)) == s
    decreases |s|
  {
    if s != "" {
      var rest := Texts(units[1..]);
      UnitsAreRead(units[1..], s[1..]);
      UnitIsRead(units[0], s[0]);
      JsonText.UnitThen(Text(units[0]), s[0], rest);
      assert (Text(units[0]) + rest)[|Text(units[0])|..] == rest;
      HeadTail(s);
    }
  }

  lemma {:induction false} UnitsOf(raw: string) returns (units: seq<Unit>)
    requires IsBody(raw)
    ensures Spells(units, JsonText.Resolve(raw)) && Texts(units) == raw
    decreases |raw|
  {
    units := [];
    if raw != "" {
      var n := UnitLength(raw);
      var u := UnitOf(raw);
      var more := UnitsOf(raw[n..]);
      units := [u] + more;
      assert units[1..] == more;
      SplitAt(raw, n);
    }
  }

  /** The reader takes a text for the inside of a string, and gives a string for it, exactly if the
      grammar spells that string by that text. */
  lemma StringsAreExact(raw: string, s: string)
    ensures IsBody(raw) && JsonText.Resolve(raw) == s <==>
            exists units: seq<Unit> :: Spells(units, s) && Texts(units) == raw
  {
    if IsBody(raw) && JsonText.Resolve(raw) == s {
      var units := UnitsOf(raw);
      assert Spells(units, s) && Texts(units) == raw;
    }
    forall units: seq<Unit> | Spells(units, s) && Texts(units) == raw
      ensures IsBody(raw) && JsonText.Resolve(raw) == s
    {
      UnitsAreRead(units, s);
    }
  }
}
