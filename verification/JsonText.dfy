/** What JSON texts denote in memory: escapes resolved, objects with one value per key. Clients
    escape strings each in their own way, and the server reads back what was meant. */
module JsonText {
  import opened Basics
  import opened JsonReader
  import opened JsonValue

  // -------------------------------------------------------------------------
  // Resolving escapes (RFC 8259, section 7)
  // -------------------------------------------------------------------------

  /** The characters escaped by a letter, and the letters. */
  function Letter(c: char): Option<char> {
    if c == '"' || c == '\\' then Some(c)
    else if c as int == 8 then Some('b')
    else if c as int == 12 then Some('f')
    else if c == '\n' then Some('n')
    else if c == '\r' then Some('r')
    else if c == '\t' then Some('t')
    else None
  }

  function Lettered(letter: char): char {
    if letter == 'b' then 8 as char
    else if letter == 'f' then 12 as char
    else if letter == 'n' then '\n'
    else if letter == 'r' then '\r'
    else if letter == 't' then '\t'
    else letter
  }

  /** The character that the unit at the front of a string body stands for. */
  function UnitChar(s: string): char
    requires UnitLength(s) > 0
  {
    var n := UnitLength(s);
    if n == 1 then s[0]
    else if n == 2 then Lettered(s[1])
    else if n == 6 then HexCode(s, 0) as char
    else (0x1_0000 + 0x400 * (HexCode(s, 0) - 0xd800) + (HexCode(s, 6) - 0xdc00)) as char
  }

  function Resolve(raw: string): string {
    if raw == "" || UnitLength(raw) == 0 then "" else [UnitChar(raw)] + Resolve(raw[UnitLength(raw)..])
  }

  // -------------------------------------------------------------------------
  // Escaping
  // -------------------------------------------------------------------------

  function HexDigit(n: nat): (c: char)
    requires n < 16
    ensures IsHexDigit(c) && HexDigitValue(c) == n
  {
    if n < 10 then ('0' as int + n) as char else ('a' as int + (n - 10)) as char
  }

  /** A backslash, a `u` and four digits. */
  function HexEscape(code: nat): string
    requires code < 0x1_0000
  {
    var (a, b, c) := (code / 16 / 16 / 16, code / 16 / 16, code / 16);
    ['\\', 'u', HexDigit(a), HexDigit(b % 16), HexDigit(c % 16), HexDigit(code % 16)]
  }

  /** `serde_json` escapes what has to be escaped. */
  function RustUnit(c: char): string {
    if Letter(c).Some? then ['\\', Letter(c).value]
    else if c as int < 0x20 then HexEscape(c as int)
    else [c]
  }

  /** `json.dumps` escapes everything but printable ASCII, the rest by pairs of surrogates. */
  function PythonUnit(c: char): string {
    var code := c as int;
    if Letter(c).Some? then ['\\', Letter(c).value]
    else if 0x20 <= code <= 0x7e then [c]
    else if code < 0x1_0000 then HexEscape(code)
    else HexEscape(0xd800 + (code - 0x1_0000) / 0x400) + HexEscape(0xdc00 + (code - 0x1_0000) % 0x400)
  }

  function Escaped(unit: char -> string, s: string): string {
    if s == "" then "" else unit(s[0]) + Escaped(unit, s[1..])
  }

  /** The text is one unit, for this character. */
  predicate Denotes(text: string, c: char) { UnitLength(text) == |text| > 0 && UnitChar(text) == c }

  lemma HexEscapeReads(code: nat)
    requires code < 0x1_0000
    ensures IsHexEscape(HexEscape(code), 0) && HexCode(HexEscape(code), 0) == code
  {
    var (a, b, c) := (code / 16 / 16 / 16, code / 16 / 16, code / 16);
    assert code == 16 * c + code % 16 && c == 16 * b + c % 16 && b == 16 * a + b % 16;
  }

  lemma LetterReads(c: char)
    requires Letter(c).Some?
    ensures Denotes(['\\', Letter(c).value], c)
  {}

  lemma CodeReads(c: char)
    requires c as int < 0x1_0000
    ensures Denotes(HexEscape(c as int), c)
  {
    HexEscapeReads(c as int);
    assert HexEscape(c as int)[1] == 'u';
  }

  lemma PairReads(c: char)
    requires c as int >= 0x1_0000
    ensures var v := c as int - 0x1_0000;
      Denotes(HexEscape(0xd800 + v / 0x400) + HexEscape(0xdc00 + v % 0x400), c)
  {
    var v := c as int - 0x1_0000;
    var high, low := 0xd800 + v / 0x400, 0xdc00 + v % 0x400;
    HexEscapeReads(high);
    HexEscapeReads(low);
    var text := HexEscape(high) + HexEscape(low);
    assert forall i :: 0 <= i < 6 ==> text[6 + i] == HexEscape(low)[i];
    assert IsHexEscape(text, 0) && HexCode(text, 0) == high;
    assert IsHexEscape(text, 6) && HexCode(text, 6) == low;
    assert text[1] == 'u';
  }

  lemma RustUnitReads(c: char)
    ensures Denotes(RustUnit(c), c)
  {
    if Letter(c).Some? {
      LetterReads(c);
    } else if c as int < 0x20 {
      CodeReads(c);
    }
  }

  lemma PythonUnitReads(c: char)
    ensures Denotes(PythonUnit(c), c)
  {
    if Letter(c).Some? {
      LetterReads(c);
    } else if c as int >= 0x1_0000 {
      PairReads(c);
    } else if !(0x20 <= c as int <= 0x7e) {
      CodeReads(c);
    }
  }

  lemma UnitThen(text: string, c: char, rest: string)
    requires Denotes(text, c)
    ensures UnitLength(text + rest) == |text| && UnitChar(text + rest) == c
  {
    var s := text + rest;
    assert forall i :: 0 <= i < |text| ==> s[i] == text[i];
    if |text| >= 6 {
      assert HexCode(s, 0) == HexCode(text, 0);
    }
    if |text| == 12 {
      assert HexCode(s, 6) == HexCode(text, 6);
    }
  }

  /** Whatever units a client escapes characters by, if each is read as its character then the text
      is a string body that is read as the string. */
  lemma {:induction false} EscapedIsRead(unit: char -> string, s: string)
    requires forall c :: Denotes(unit(c), c)
    ensures IsBody(Escaped(unit, s)) && Resolve(Escaped(unit, s)) == s
  {
    if s != "" {
      var text, rest := unit(s[0]), Escaped(unit, s[1..]);
      EscapedIsRead(unit, s[1..]);
      assert Denotes(unit(s[0]), s[0]);
      UnitThen(text, s[0], rest);
      SliceConcat(text, rest, |text|);
      assert text[|text|..] + rest == rest;
      HeadTail(s);
    }
  }

  /** Both clients' strings are read as they were meant, whatever characters they hold. */
  lemma ClientStringsAreRead(s: string)
    ensures IsBody(Escaped(RustUnit, s)) && Resolve(Escaped(RustUnit, s)) == s
    ensures IsBody(Escaped(PythonUnit, s)) && Resolve(Escaped(PythonUnit, s)) == s
  {
    forall c: char
      ensures Denotes(RustUnit(c), c) && Denotes(PythonUnit(c), c)
    {
      RustUnitReads(c);
      PythonUnitReads(c);
    }
    EscapedIsRead(RustUnit, s);
    EscapedIsRead(PythonUnit, s);
  }

  // -------------------------------------------------------------------------
  // Values in memory
  // -------------------------------------------------------------------------

  /** The value read, with numbers as `number` takes them. */
  function InMemory(v: Value, number: string -> Json): Json {
    match v
    case VNull => JNull
    case VBool(b) => JBool(b)
    case VNumber(text) => number(text)
    case VString(raw) => JStr(Resolve(raw))
    case VArray(items) => JArr(Items(items, number))
    case VObject(members) => JObj(Fields(members, number))
  }

  function Items(vs: seq<Value>, number: string -> Json): seq<Json> {
    if vs == [] then [] else [InMemory(vs[0], number)] + Items(vs[1..], number)
  }

  /** Of several members with one key the last counts. */
  function Fields(ms: seq<Entry>, number: string -> Json): map<string, Json> {
    if ms == [] then map[]
    else
      var rest, key := Fields(ms[1..], number), Resolve(ms[0].key);
      if key in rest then rest else rest[key := InMemory(ms[0].value, number)]
  }

  /** Under each key of an object is the value of the last member with that key. */
  lemma {:induction false} LastMemberCounts(ms: seq<Entry>, number: string -> Json, i: nat)
    requires i < |ms| && forall j :: i < j < |ms| ==> Resolve(ms[j].key) != Resolve(ms[i].key)
    ensures Resolve(ms[i].key) in Fields(ms, number)
    ensures Fields(ms, number)[Resolve(ms[i].key)] == InMemory(ms[i].value, number)
    decreases i
  {
    if i > 0 {
      LastMemberCounts(ms[1..], number, i - 1);
    } else {
      KeysOfMembers(ms[1..], number, Resolve(ms[0].key));
    }
  }

  /** The keys of an object are those of its members. */
  lemma {:induction false} KeysOfMembers(ms: seq<Entry>, number: string -> Json, key: string)
    ensures key in Fields(ms, number) <==> exists i :: 0 <= i < |ms| && Resolve(ms[i].key) == key
    decreases |ms|
  {
    if ms != [] {
      KeysOfMembers(ms[1..], number, key);
      assert forall i :: 1 <= i < |ms| ==> ms[i] == ms[1..][i - 1];
      if key in Fields(ms[1..], number) {
        var i :| 0 <= i < |ms[1..]| && Resolve(ms[1..][i].key) == key;
        assert Resolve(ms[i + 1].key) == key;
      }
    }
  }
}
