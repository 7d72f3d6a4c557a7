/** JSON text after RFC 8259, sections 2 to 7: a strict recursive-descent reader over raw
    strings and number texts, and documents printed with keys in any quoting style. */
module JsonReader {
  import opened Basics
  import Decimal

  /** What a reader returns; string bodies and numbers are kept as written. */
  datatype Value =
    | VNull
    | VBool(b: bool)
    | VNumber(text: string)
    | VString(raw: string)
    | VArray(items: seq<Value>)
    | VObject(members: seq<Entry>)

  datatype Entry = Entry(key: string, value: Value)

  predicate IsWs(c: char) { c == ' ' || c == '\t' || c == '\n' || c == '\r' }

  function SkipWs(s: string): (r: string)
    ensures |r| <= |s| && (r != "" ==> !IsWs(r[0]))
  {
    if s != "" && IsWs(s[0]) then SkipWs(s[1..]) else s
  }

  // -------------------------------------------------------------------------
  // Strings (section 7)
  // -------------------------------------------------------------------------

  /** Four hexadecimal digits after a backslash and a `u`. */
  predicate IsHexEscape(s: string, i: nat) {
    && i + 6 <= |s| && s[i] == '\\' && s[i + 1] == 'u'
    && IsHexDigit(s[i + 2]) && IsHexDigit(s[i + 3]) && IsHexDigit(s[i + 4]) && IsHexDigit(s[i + 5])
  }

  function HexCode(s: string, i: nat): (n: nat)
    requires IsHexEscape(s, i)
    ensures n < 0x1_0000
  {
    0x1000 * HexDigitValue(s[i + 2]) + 0x100 * HexDigitValue(s[i + 3])
    + 0x10 * HexDigitValue(s[i + 4]) + HexDigitValue(s[i + 5])
  }

  predicate IsHigh(code: nat) { 0xd800 <= code < 0xdc00 }

  predicate IsLow(code: nat) { 0xdc00 <= code < 0xe000 }

  /** Length of the unit at the front of a string body, or zero if none may stand there: surrogates
      come in pairs only. */
  function UnitLength(s: string): (n: nat)
    ensures n <= |s| && n <= 12
  {
    if s == "" || s[0] == '"' || s[0] as int < 0x20 then 0
    else if s[0] != '\\' then 1
    else if |s| >= 2 && s[1] in "\"\\/bfnrt" then 2
    else if !IsHexEscape(s, 0) || IsLow(HexCode(s, 0)) then 0
    else if !IsHigh(HexCode(s, 0)) then 6
    else if IsHexEscape(s, 6) && IsLow(HexCode(s, 6)) then 12
    else 0
  }

  predicate IsBody(raw: string) {
    raw == "" || (UnitLength(raw) > 0 && IsBody(raw[UnitLength(raw)..]))
  }

  /** Read a string body and the quote that ends it. */
  function ScanString(s: string): (r: Option<(string, string)>)
    ensures r.Some? ==> |r.value.1| < |s|
  {
    if s == "" then None
    else if s[0] == '"' then Some(("", s[1..]))
    else
      var n := UnitLength(s);
      if n == 0 then None
      else match ScanString(s[n..])
        case Some((raw, rest)) => Some((s[..n] + raw, rest))
        case None => None
  }

  // -------------------------------------------------------------------------
  // Numbers (section 6)
  // -------------------------------------------------------------------------

  predicate IsNumberChar(c: char) { IsDigit(c) || c == '-' || c == '+' || c == '.' || c == 'e' || c == 'E' }

  function NumberRun(s: string): (n: nat)
    ensures n <= |s|
  {
    if s == "" || !IsNumberChar(s[0]) then 0 else 1 + NumberRun(s[1..])
  }

  predicate IsExponent(t: string) {
    t == "" || ((t[0] == 'e' || t[0] == 'E') &&
      var u := if |t| > 1 && (t[1] == '+' || t[1] == '-') then t[2..] else t[1..];
      u != "" && AllDigits(u))
  }

  predicate IsFraction(t: string) {
    if t != "" && t[0] == '.' then
      var d := DigitRun(t[1..]);
      d > 0 && IsExponent(t[1 + d..])
    else IsExponent(t)
  }

  predicate IsNumberText(s: string) {
    var a := if s != "" && s[0] == '-' then s[1..] else s;
    var d := DigitRun(a);
    d > 0 && (a[0] == '0' ==> d == 1) && IsFraction(a[d..])
  }

  /** `v` times ten to the `n`. */
  function Scaled(v: nat, n: nat): nat { if n == 0 then v else 10 * Scaled(v, n - 1) }

  /** Half a unit above the largest double: 2^1024 - 2^970. */
  const OVERFLOW: nat := (Pow2(54) - 1) * Pow2(970)

  function ExponentValue(t: string): int {
    if t == "" then 0
    else
      var signed := |t| > 1 && (t[1] == '+' || t[1] == '-');
      var n: int := Decimal.Value(DigitsOf(if signed then t[2..] else t[1..]));
      if signed && t[1] == '-' then -n else n
  }

  function DigitsOf(s: string): (digits: string)
    ensures AllDigits(digits)
  {
    s[..DigitRun(s)]
  }

  /** The digits after the point, and the power of ten that all digits are scaled by. */
  function Decimals(rest: string): (r: (string, int))
    ensures AllDigits(r.0)
  {
    if rest != "" && rest[0] == '.' then
      var digits := DigitsOf(rest[1..]);
      (digits, ExponentValue(rest[1 + |digits|..]) - |digits|)
    else ("", ExponentValue(rest))
  }

  /** A number's digits, and the power of ten that they are scaled by. */
  function Significand(s: string): (r: (string, int))
    ensures AllDigits(r.0)
  {
    var a := if s != "" && s[0] == '-' then s[1..] else s;
    var (digits, power) := Decimals(a[DigitRun(a)..]);
    (DigitsOf(a) + digits, power)
  }

  /** A number that is so many units of a power of ten lies below the bound. */
  predicate Below(units: nat, power: int, bound: nat) {
    if power >= 0 then Scaled(units, power) < bound else units < Scaled(bound, -power)
  }

  /** The number does not round to an infinite double; otherwise it is refused as out of range. */
  predicate InRange(s: string) {
    var (digits, power) := Significand(s);
    Below(Decimal.Value(digits), power, OVERFLOW)
  }

  predicate IsNumber(s: string) { IsNumberText(s) && InRange(s) }

  // -------------------------------------------------------------------------
  // The strict reader (sections 2 to 5)
  // -------------------------------------------------------------------------

  /** Arrays and objects nested this deep are refused. */
  const NESTING: nat := 128

  /** `room` is one more than the arrays and objects that may still be opened. */
  function ParseValue(s: string, room: nat): (r: Option<(Value, string)>)
    ensures r.Some? ==> |r.value.1| < |s|
    decreases |s|, 0
  {
    var t := SkipWs(s);
    if t == "" then None
    else if "null" <= t then Some((VNull, t[4..]))
    else if "true" <= t then Some((VBool(true), t[4..]))
    else if "false" <= t then Some((VBool(false), t[5..]))
    else if t[0] == '"' then
      match ScanString(t[1..])
      case Some((raw, rest)) => Some((VString(raw), rest))
      case None => None
    else if t[0] == '[' then
      var u := SkipWs(t[1..]);
      if room <= 1 then None
      else if u != "" && u[0] == ']' then Some((VArray([]), u[1..]))
      else match ParseItems(u, room - 1)
        case Some((vs, rest)) => Some((VArray(vs), rest))
        case None => None
    else if t[0] == '{' then
      var u := SkipWs(t[1..]);
      if room <= 1 then None
      else if u != "" && u[0] == '}' then Some((VObject([]), u[1..]))
      else match ParseMembers(u, room - 1)
        case Some((ms, rest)) => Some((VObject(ms), rest))
        case None => None
    else
      var n := NumberRun(t);
      if n > 0 && IsNumber(t[..n]) then Some((VNumber(t[..n]), t[n..])) else None
  }

  /** One or more values separated by commas, and the closing bracket. */
  function ParseItems(s: string, room: nat): (r: Option<(seq<Value>, string)>)
    ensures r.Some? ==> |r.value.1| < |s|
    decreases |s|, 1
  {
    match ParseValue(s, room)
    case None => None
    case Some((v, after)) =>
      var t := SkipWs(after);
      if t != "" && t[0] == ']' then Some(([v], t[1..]))
      else if t != "" && t[0] == ',' then
        match ParseItems(t[1..], room)
        case Some((vs, rest)) => Some(([v] + vs, rest))
        case None => None
      else None
  }

  /** A quoted key and its colon. */
  function ParseKey(s: string): (r: Option<(string, string)>)
    ensures r.Some? ==> |r.value.1| < |s|
  {
    var t := SkipWs(s);
    if t == "" || t[0] != '"' then None
    else match ScanString(t[1..])
      case None => None
      case Some((key, after)) =>
        var u := SkipWs(after);
        if u != "" && u[0] == ':' then Some((key, u[1..])) else None
  }

  function ParseMembers(s: string, room: nat): (r: Option<(seq<Entry>, string)>)
    ensures r.Some? ==> |r.value.1| < |s|
    decreases |s|, 1
  {
    match ParseKey(s)
    case None => None
    case Some((key, body)) =>
      match ParseValue(body, room)
      case None => None
      case Some((v, after)) =>
        var t := SkipWs(after);
        if t != "" && t[0] == '}' then Some(([Entry(key, v)], t[1..]))
        else if t != "" && t[0] == ',' then
          match ParseMembers(t[1..], room)
          case Some((ms, rest)) => Some(([Entry(key, v)] + ms, rest))
          case None => None
        else None
  }

  /** A whole document: one value, then nothing but white space. */
  function Parse(s: string): Option<Value> {
    match ParseValue(s, NESTING)
    case Some((v, rest)) => if SkipWs(rest) == "" then Some(v) else None
    case None => None
  }
}
