/** What `parse_request` returns on every document with alphanumeric keys, whatever the
    quoting style of each key. */
module LenientProofs {
  import opened Basics
  import opened JsonReader
  import opened KeyRepair
  import opened LenientJson

  /** What may follow a value inside a document. */
  predicate Stops(rest: string) {
    rest == "" || rest[0] == ',' || rest[0] == ']' || rest[0] == '}' || IsWs(rest[0])
  }

  // -------------------------------------------------------------------------
  // Reading scalars
  // -------------------------------------------------------------------------

  lemma {:induction false} SkipGap(gap: string, s: string)
    requires IsGap(gap)
    ensures SkipWs(gap + s) == SkipWs(s)
  {
    if gap == "" {
      assert gap + s == s;
    } else {
      assert (gap + s)[1..] == gap[1..] + s;
      SkipGap(gap[1..], s);
    }
  }

  lemma GapBeforeValue(gap: string, s: string, room: nat)
    requires IsGap(gap)
    ensures ParseValue(gap + s, room) == ParseValue(s, room)
  {
    SkipGap(gap, s);
  }

  lemma UnitIsLocal(raw: string, rest: string)
    requires UnitLength(raw) > 0
    ensures UnitLength(raw + rest) == UnitLength(raw)
  {}

  lemma {:induction false} ScanBody(raw: string, rest: string)
    requires IsBody(raw)
    ensures ScanString(raw + ("\"" + rest)) == Some((raw, rest))
  {
    var s := raw + ("\"" + rest);
    if raw == "" {
      assert s == "\"" + rest && s[1..] == rest;
    } else {
      var n := UnitLength(raw);
      UnitIsLocal(raw, "\"" + rest);
      SliceConcat(raw, "\"" + rest, n);
      ScanBody(raw[n..], rest);
      SplitAt(raw, n);
    }
  }

  predicate AllNumberChars(s: string) { forall i :: 0 <= i < |s| ==> IsNumberChar(s[i]) }

  lemma ConcatNumberChars(a: string, b: string)
    requires AllNumberChars(a) && AllNumberChars(b)
    ensures AllNumberChars(a + b)
  {}

  lemma NumberChars(s: string)
    requires IsNumber(s)
    ensures s != "" && AllNumberChars(s) && (IsDigit(s[0]) || s[0] == '-')
  {
    var a := if s[0] == '-' then s[1..] else s;
    var d := DigitRun(a);
    FractionChars(a[d..]);
    ConcatNumberChars(a[..d], a[d..]);
    SplitAt(a, d);
    if s[0] == '-' {
      SplitAt(s, 1);
    }
  }

  lemma FractionChars(t: string)
    requires IsFraction(t)
    ensures AllNumberChars(t)
  {
    if t != "" && t[0] == '.' {
      var d := DigitRun(t[1..]);
      ExponentChars(t[1 + d..]);
      ConcatNumberChars(t[1..][..d], t[1 + d..]);
      assert t == "." + (t[1..][..d] + t[1 + d..]);
    } else {
      ExponentChars(t);
    }
  }

  lemma ExponentChars(t: string)
    requires IsExponent(t)
    ensures AllNumberChars(t)
  {
    if t != "" {
      var k := if |t| > 1 && (t[1] == '+' || t[1] == '-') then 2 else 1;
      SplitAt(t, k);
      assert AllNumberChars(t[..k]) && AllDigits(t[k..]);
      ConcatNumberChars(t[..k], t[k..]);
    }
  }

  lemma NoNumberHere(rest: string)
    requires Stops(rest)
    ensures NumberRun(rest) == 0
  {}

  lemma OneMoreChar(c: char, s: string)
    requires IsNumberChar(c)
    ensures NumberRun([c] + s) == 1 + NumberRun(s)
  {
    assert ([c] + s)[1..] == s;
  }

  lemma {:induction false} NumberRunStops(text: string, rest: string)
    requires AllNumberChars(text) && Stops(rest)
    ensures NumberRun(text + rest) == |text|
  {
    if text == "" {
      assert text + rest == rest;
      NoNumberHere(rest);
    } else {
      FirstThen(text, rest);
      NumberRunStops(text[1..], rest);
      OneMoreChar(text[0], text[1..] + rest);
    }
  }

  lemma ReadScalar(t: Tree, gap: string, rest: string, room: nat)
    requires WellFormed(t) && Stops(rest) && !t.Array? && !t.Object?
    ensures ParseValue(Print(t, gap) + rest, room) == Some((Meaning(t), rest))
  {
    match t
    case Null => ReadNull(rest, room);
    case Bool(b) => ReadBool(b, rest, room);
    case Number(text) => ReadNumber(text, rest, room);
    case Text(raw) => ReadText(raw, rest, room);
  }

  lemma ReadNull(rest: string, room: nat)
    ensures ParseValue("null" + rest, room) == Some((VNull, rest))
  {
    assert ("null" + rest)[4..] == rest;
  }

  lemma ReadText(raw: string, rest: string, room: nat)
    requires IsBody(raw)
    ensures ParseValue("\"" + raw + "\"" + rest, room) == Some((VString(raw), rest))
  {
    assert ("\"" + raw + "\"" + rest)[1..] == raw + ("\"" + rest);
    ScanBody(raw, rest);
  }

  lemma ReadBool(b: bool, rest: string, room: nat)
    ensures ParseValue((if b then "true" else "false") + rest, room) == Some((Meaning(Tree.Bool(b)), rest))
  {
    assert ("true" + rest)[4..] == rest && ("false" + rest)[5..] == rest;
  }

  lemma ReadNumber(text: string, rest: string, room: nat)
    requires WellFormed(Tree.Number(text)) && Stops(rest)
    ensures ParseValue(text + rest, room) == Some((Meaning(Tree.Number(text)), rest))
  {
    NumberChars(text);
    NumberRunStops(text, rest);
    assert (text + rest)[..|text|] == text && (text + rest)[|text|..] == rest;
    ParseNumberFront(text + rest, room);
  }

  lemma NoWordFront(s: string)
    requires s != "" && (IsDigit(s[0]) || s[0] == '-')
    ensures SkipWs(s) == s && !("null" <= s) && !("true" <= s) && !("false" <= s)
    ensures s[0] != '"' && s[0] != '[' && s[0] != '{'
  {
    assert "null"[0] == 'n' && "true"[0] == 't' && "false"[0] == 'f';
  }

  /** A text that starts like a number is read as one. */
  lemma ParseNumberFront(s: string, room: nat)
    requires s != "" && (IsDigit(s[0]) || s[0] == '-')
    requires NumberRun(s) > 0 && IsNumber(s[..NumberRun(s)])
    ensures ParseValue(s, room) == Some((VNumber(s[..NumberRun(s)]), s[NumberRun(s)..]))
  {
    NoWordFront(s);
  }

  // -------------------------------------------------------------------------
  // Reading documents
  // -------------------------------------------------------------------------

  lemma PrintHead(t: Tree, gap: string)
    requires WellFormed(t)
    ensures var s := Print(t, gap);
      s != "" && !IsWs(s[0]) && s[0] != ']' && s[0] != '}' && s[0] != ',' && s[0] != ':'
  {
    if t.Number? {
      NumberChars(t.text);
    }
  }

  predicate ItemsDouble(ts: seq<Tree>) { forall i :: 0 <= i < |ts| ==> AllDouble(ts[i]) }

  predicate MembersDouble(ms: seq<Member>) {
    forall i :: 0 <= i < |ms| ==> ms[i].style == Double && AllDouble(ms[i].value)
  }

  predicate ItemsWell(ts: seq<Tree>) { forall i :: 0 <= i < |ts| ==> WellFormed(ts[i]) }

  predicate MembersWell(ms: seq<Member>) {
    forall i :: 0 <= i < |ms| ==> IsKey(ms[i].key) && WellFormed(ms[i].value)
  }

  predicate ItemsQuiet(ts: seq<Tree>) { forall i :: 0 <= i < |ts| ==> Quiet(ts[i]) }

  predicate MembersQuiet(ms: seq<Member>) { forall i :: 0 <= i < |ms| ==> Quiet(ms[i].value) }

  predicate ItemsShallow(ts: seq<Tree>, room: nat) { forall i :: 0 <= i < |ts| ==> Shallow(ts[i], room) }

  predicate MembersShallow(ms: seq<Member>, room: nat) { forall i :: 0 <= i < |ms| ==> Shallow(ms[i].value, room) }

  lemma ShallowFirst(ts: seq<Tree>, room: nat)
    requires ts != []
    ensures ItemsShallow(ts, room) <==> Shallow(ts[0], room) && ItemsShallow(ts[1..], room)
  {
    assert ts == [ts[0]] + ts[1..];
  }

  lemma ShallowFirstMember(ms: seq<Member>, room: nat)
    requires ms != []
    ensures MembersShallow(ms, room) <==> Shallow(ms[0].value, room) && MembersShallow(ms[1..], room)
  {
    assert ms == [ms[0]] + ms[1..];
  }

  lemma ItemsFirst(ts: seq<Tree>)
    requires ts != []
    ensures ItemsDouble(ts) <==> AllDouble(ts[0]) && ItemsDouble(ts[1..])
    ensures ItemsWell(ts) <==> WellFormed(ts[0]) && ItemsWell(ts[1..])
    ensures ItemsQuiet(ts) <==> Quiet(ts[0]) && ItemsQuiet(ts[1..])
  {
    assert ts == [ts[0]] + ts[1..];
  }

  lemma MembersFirst(ms: seq<Member>)
    requires ms != []
    ensures MembersDouble(ms) <==> ms[0].style == Double && AllDouble(ms[0].value) && MembersDouble(ms[1..])
    ensures MembersWell(ms) <==> IsKey(ms[0].key) && WellFormed(ms[0].value) && MembersWell(ms[1..])
    ensures MembersQuiet(ms) <==> Quiet(ms[0].value) && MembersQuiet(ms[1..])
  {
    assert ms == [ms[0]] + ms[1..];
  }

  function When<T>(ok: bool, v: T, rest: string): Option<(T, string)> {
    if ok then Some((v, rest)) else None
  }

  lemma LastItem(s: string, ok: bool, v: Value, rest: string, room: nat)
    requires ParseValue(s, room) == When(ok, v, "]" + rest)
    ensures ParseItems(s, room) == When(ok, [v], rest)
  {
    assert ("]" + rest)[1..] == rest;
  }

  lemma NextItem(s: string, ok: bool, v: Value, more: string, oks: bool, vs: seq<Value>, rest: string, room: nat)
    requires ParseValue(s, room) == When(ok, v, "," + more)
    requires ParseItems(more, room) == When(oks, vs, rest)
    ensures ParseItems(s, room) == When(ok && oks, [v] + vs, rest)
  {
    assert ("," + more)[1..] == more;
  }

  lemma LastMember(s: string, keyed: bool, key: string, body: string, ok: bool, v: Value, rest: string, room: nat)
    requires ParseKey(s) == When(keyed, key, body)
    requires ParseValue(body, room) == When(ok, v, "}" + rest)
    ensures ParseMembers(s, room) == When(keyed && ok, [Entry(key, v)], rest)
  {
    assert ("}" + rest)[1..] == rest;
  }

  lemma NextMember(s: string, keyed: bool, key: string, body: string, ok: bool, v: Value, more: string,
                   oks: bool, ms: seq<Entry>, rest: string, room: nat)
    requires ParseKey(s) == When(keyed, key, body)
    requires ParseValue(body, room) == When(ok, v, "," + more)
    requires ParseMembers(more, room) == When(oks, ms, rest)
    ensures ParseMembers(s, room) == When(keyed && ok && oks, [Entry(key, v)] + ms, rest)
  {
    assert ("," + more)[1..] == more;
  }

  lemma ReadArray(u: string, ok: bool, vs: seq<Value>, rest: string, room: nat)
    requires u != "" && !IsWs(u[0]) && u[0] != ']'
    requires room > 1 ==> ParseItems(u, room - 1) == When(ok, vs, rest)
    ensures ParseValue("[" + u, room) == When(room > 1 && ok, VArray(vs), rest)
  {
    assert ("[" + u)[1..] == u;
  }

  lemma ReadObject(u: string, ok: bool, ms: seq<Entry>, rest: string, room: nat)
    requires u != "" && !IsWs(u[0]) && u[0] != '}'
    requires room > 1 ==> ParseMembers(u, room - 1) == When(ok, ms, rest)
    ensures ParseValue("{" + u, room) == When(room > 1 && ok, VObject(ms), rest)
  {
    assert ("{" + u)[1..] == u;
  }

  lemma ReadEmpty(rest: string, room: nat)
    ensures ParseValue("[]" + rest, room) == When(room > 1, VArray([]), rest)
    ensures ParseValue("{}" + rest, room) == When(room > 1, VObject([]), rest)
  {
    assert ("[]" + rest)[1..] == "]" + rest && ("]" + rest)[1..] == rest;
    assert ("{}" + rest)[1..] == "}" + rest && ("}" + rest)[1..] == rest;
  }

  // How the printed text of a list splits after its first element.

  lemma Wrapped(open: string, body: string, close: string, rest: string)
    ensures (open + body + close) + rest == open + (body + (close + rest))
  {}

  lemma Listed(head: string, gap: string, more: string, rest: string)
    ensures (head + "") + rest == head + rest
    ensures (head + ("," + gap + more)) + rest == head + ("," + (gap + (more + rest)))
  {}

  lemma Keyword(key: string, gap: string, body: string, tail: string)
    ensures (key + gap + body) + tail == key + (gap + (body + tail))
  {}

  lemma SplitItems(ts: seq<Tree>, gap: string, rest: string)
    requires ts != []
    ensures |ts| == 1 ==>
      PrintItems(ts, gap) + ("]" + rest) == Print(ts[0], gap) + ("]" + rest)
    ensures |ts| > 1 ==>
      PrintItems(ts, gap) + ("]" + rest)
      == Print(ts[0], gap) + ("," + (gap + (PrintItems(ts[1..], gap) + ("]" + rest))))
  {
    Listed(Print(ts[0], gap), gap, PrintItems(ts[1..], gap), "]" + rest);
  }

  lemma SplitMembers(ms: seq<Member>, gap: string, rest: string)
    requires ms != []
    ensures |ms| == 1 ==>
      PrintMembers(ms, gap) + ("}" + rest)
      == KeyText(ms[0].key, ms[0].style) + (gap + (Print(ms[0].value, gap) + ("}" + rest)))
    ensures |ms| > 1 ==>
      PrintMembers(ms, gap) + ("}" + rest)
      == KeyText(ms[0].key, ms[0].style)
         + (gap + (Print(ms[0].value, gap) + ("," + (gap + (PrintMembers(ms[1..], gap) + ("}" + rest))))))
  {
    var key, value := KeyText(ms[0].key, ms[0].style), Print(ms[0].value, gap);
    Listed(key + gap + value, gap, PrintMembers(ms[1..], gap), "}" + rest);
    Keyword(key, gap, value, "}" + rest);
    Keyword(key, gap, value, "," + (gap + (PrintMembers(ms[1..], gap) + ("}" + rest))));
  }

  /** The strict reader accepts a printed document exactly when all its keys are in double
      quotes, and then returns its meaning. */
  lemma {:induction false} ReadPrinted(t: Tree, gap: string, rest: string, room: nat)
    requires WellFormed(t) && IsGap(gap) && Stops(rest)
    ensures ParseValue(Print(t, gap) + rest, room) == When(AllDouble(t) && Shallow(t, room), Meaning(t), rest)
    decreases t
  {
    match t {
      case Array(items) => ReadArrayText(items, gap, rest, room);
      case Object(members) => ReadObjectText(members, gap, rest, room);
      case _ => ReadScalar(t, gap, rest, room);
    }
  }

  lemma ReadArrayText(items: seq<Tree>, gap: string, rest: string, room: nat)
    requires ItemsWell(items) && IsGap(gap)
    ensures ParseValue(("[" + PrintItems(items, gap) + "]") + rest, room)
      == When(room > 1 && ItemsDouble(items) && ItemsShallow(items, room - 1), VArray(ItemMeanings(items)), rest)
    decreases items, 1
  {
    if items == [] {
      ReadEmpty(rest, room);
      assert ("[" + PrintItems(items, gap) + "]") + rest == "[]" + rest;
    } else {
      Wrapped("[", PrintItems(items, gap), "]", rest);
      SplitItems(items, gap, rest);
      PrintHead(items[0], gap);
      if room > 1 {
        ReadItems(items, gap, rest, room - 1);
      }
      ReadArray(PrintItems(items, gap) + ("]" + rest), room > 1 && ItemsDouble(items) && ItemsShallow(items, room - 1),
                ItemMeanings(items), rest, room);
    }
  }

  lemma ReadObjectText(members: seq<Member>, gap: string, rest: string, room: nat)
    requires MembersWell(members) && IsGap(gap)
    ensures ParseValue(("{" + PrintMembers(members, gap) + "}") + rest, room)
      == When(room > 1 && MembersDouble(members) && MembersShallow(members, room - 1),
              VObject(MemberMeanings(members)), rest)
    decreases members, 1
  {
    if members == [] {
      ReadEmpty(rest, room);
      assert ("{" + PrintMembers(members, gap) + "}") + rest == "{}" + rest;
    } else {
      Wrapped("{", PrintMembers(members, gap), "}", rest);
      SplitMembers(members, gap, rest);
      if room > 1 {
        ReadMembers(members, gap, rest, room - 1);
      }
      ReadObject(PrintMembers(members, gap) + ("}" + rest),
                 room > 1 && MembersDouble(members) && MembersShallow(members, room - 1),
                 MemberMeanings(members), rest, room);
    }
  }

  lemma {:induction false} ReadItems(ts: seq<Tree>, gap: string, rest: string, room: nat)
    requires ts != [] && IsGap(gap) && ItemsWell(ts)
    ensures ParseItems(PrintItems(ts, gap) + ("]" + rest), room)
      == When(ItemsDouble(ts) && ItemsShallow(ts, room), ItemMeanings(ts), rest)
    decreases ts, 0
  {
    var s := PrintItems(ts, gap) + ("]" + rest);
    SplitItems(ts, gap, rest);
    ItemsFirst(ts);
    ShallowFirst(ts, room);
    if |ts| == 1 {
      ReadPrinted(ts[0], gap, "]" + rest, room);
      assert ItemMeanings(ts) == [Meaning(ts[0])];
      LastItem(s, AllDouble(ts[0]) && Shallow(ts[0], room), Meaning(ts[0]), rest, room);
    } else {
      var more := PrintItems(ts[1..], gap) + ("]" + rest);
      ReadPrinted(ts[0], gap, "," + (gap + more), room);
      ReadItems(ts[1..], gap, rest, room);
      GapBeforeItems(gap, more, room);
      NextItem(s, AllDouble(ts[0]) && Shallow(ts[0], room), Meaning(ts[0]), gap + more,
               ItemsDouble(ts[1..]) && ItemsShallow(ts[1..], room), ItemMeanings(ts[1..]), rest, room);
    }
  }

  lemma GapBeforeItems(gap: string, s: string, room: nat)
    requires IsGap(gap)
    ensures ParseItems(gap + s, room) == ParseItems(s, room)
  {
    GapBeforeValue(gap, s, room);
  }

  lemma GapBeforeMembers(gap: string, s: string, room: nat)
    requires IsGap(gap)
    ensures ParseMembers(gap + s, room) == ParseMembers(s, room)
  {
    SkipGap(gap, s);
  }

  lemma {:induction false} KeyIsBody(key: string)
    requires forall i :: 0 <= i < |key| ==> IsAlnum(key[i])
    ensures IsBody(key)
  {
    if key != "" {
      KeyIsBody(key[1..]);
    }
  }

  lemma ReadQuotedKey(key: string, rest: string)
    requires IsKey(key)
    ensures ParseKey(QuotedKey(key) + rest) == Some((key, rest))
  {
    var s := QuotedKey(key) + rest;
    KeyIsBody(key);
    assert s[1..] == key + ("\"" + (":" + rest));
    ScanBody(key, ":" + rest);
    assert (":" + rest)[1..] == rest;
  }

  lemma ReadKey(key: string, style: Style, rest: string)
    requires IsKey(key)
    ensures ParseKey(KeyText(key, style) + rest) == When(style == Double, key, rest)
  {
    if style == Double {
      ReadQuotedKey(key, rest);
    } else {
      var s := KeyText(key, style) + rest;
      assert s[0] == '\'' || IsAlnum(s[0]);
    }
  }

  function MemberText(m: Member, gap: string, tail: string): string {
    KeyText(m.key, m.style) + (gap + (Print(m.value, gap) + tail))
  }

  lemma ReadMember(m: Member, gap: string, tail: string, room: nat)
    requires IsKey(m.key) && WellFormed(m.value) && IsGap(gap) && Stops(tail)
    ensures var body := gap + (Print(m.value, gap) + tail);
      && ParseKey(MemberText(m, gap, tail)) == When(m.style == Double, m.key, body)
      && ParseValue(body, room) == When(AllDouble(m.value) && Shallow(m.value, room), Meaning(m.value), tail)
    decreases m, 0
  {
    ReadKey(m.key, m.style, gap + (Print(m.value, gap) + tail));
    GapBeforeValue(gap, Print(m.value, gap) + tail, room);
    ReadPrinted(m.value, gap, tail, room);
  }

  lemma ReadLastMember(s: string, m: Member, gap: string, rest: string, room: nat)
    requires s == MemberText(m, gap, "}" + rest)
    requires IsKey(m.key) && WellFormed(m.value) && IsGap(gap)
    ensures ParseMembers(s, room)
      == When(m.style == Double && AllDouble(m.value) && Shallow(m.value, room),
              [Entry(m.key, Meaning(m.value))], rest)
    decreases m, 1
  {
    ReadMember(m, gap, "}" + rest, room);
    LastMember(s, m.style == Double, m.key, gap + (Print(m.value, gap) + ("}" + rest)),
               AllDouble(m.value) && Shallow(m.value, room), Meaning(m.value), rest, room);
  }

  lemma ReadNextMember(s: string, m: Member, gap: string, more: string,
                       oks: bool, ms: seq<Entry>, rest: string, room: nat)
    requires s == MemberText(m, gap, "," + (gap + more))
    requires IsKey(m.key) && WellFormed(m.value) && IsGap(gap)
    requires ParseMembers(more, room) == When(oks, ms, rest)
    ensures ParseMembers(s, room)
      == When(m.style == Double && AllDouble(m.value) && Shallow(m.value, room) && oks,
              [Entry(m.key, Meaning(m.value))] + ms, rest)
    decreases m, 1
  {
    ReadMember(m, gap, "," + (gap + more), room);
    GapBeforeMembers(gap, more, room);
    NextMember(s, m.style == Double, m.key, gap + (Print(m.value, gap) + ("," + (gap + more))),
               AllDouble(m.value) && Shallow(m.value, room), Meaning(m.value), gap + more, oks, ms, rest, room);
  }

  lemma {:induction false} ReadMembers(ms: seq<Member>, gap: string, rest: string, room: nat)
    requires ms != [] && IsGap(gap)
    requires MembersWell(ms)
    ensures ParseMembers(PrintMembers(ms, gap) + ("}" + rest), room)
      == When(MembersDouble(ms) && MembersShallow(ms, room), MemberMeanings(ms), rest)
    decreases ms, 0
  {
    var s := PrintMembers(ms, gap) + ("}" + rest);
    SplitMembers(ms, gap, rest);
    MembersFirst(ms);
    ShallowFirstMember(ms, room);
    if |ms| == 1 {
      ReadLastMember(s, ms[0], gap, rest, room);
      assert MemberMeanings(ms) == [Entry(ms[0].key, Meaning(ms[0].value))];
    } else {
      ReadMembers(ms[1..], gap, rest, room);
      ReadNextMember(s, ms[0], gap, PrintMembers(ms[1..], gap) + ("}" + rest),
                     MembersDouble(ms[1..]) && MembersShallow(ms[1..], room), MemberMeanings(ms[1..]), rest, room);
    }
  }

  // -------------------------------------------------------------------------
  // Repairing quiet documents
  // -------------------------------------------------------------------------

  lemma MatchStaysInside(a: string, b: string, m: Match)
    requires Fits(a + b, m) && Stops(b)
    ensures m.Length() <= |a|
  {
    var s := a + b;
    forall i | 0 <= i < m.Length()
      ensures IsAlnum(s[i]) || IsQuote(s[i]) || s[i] == ':'
    {
      assert i < m.Start() || m.Start() <= i < m.Start() + m.run || i >= m.Start() + m.run;
    }
    assert b != "" ==> s[|a|] == b[0];
  }

  lemma KeyedPrefix(a: string, b: string, p: nat)
    ensures p < |a| ==> (Keyed(a, p) <==> Keyed(a + b, p))
  {}

  lemma NoMatchAcross(a: string, b: string)
    requires NothingKeyed(a) && Stops(b)
    ensures MatchAt(a + b).None?
  {
    if MatchAt(a + b).Some? {
      var m := MatchAt(a + b).value;
      MatchStaysInside(a, b, m);
      KeyedInMatch(a + b, m, m.Length() - 1);
      KeyedPrefix(a, b, m.Length() - 1);
    }
  }

  lemma RepairPlain(c: char, b: string)
    requires !IsAlnum(c) && !IsQuote(c)
    ensures Repair([c] + b) == [c] + Repair(b)
  {
    RepairOne(c, b);
  }

  lemma TailUnkeyed(a: string)
    requires a != "" && NothingKeyed(a)
    ensures NothingKeyed(a[1..])
  {
    forall p: nat | p < |a[1..]|
      ensures !Keyed(a[1..], p)
    {
      assert !Keyed(a, p + 1);
    }
  }

  /** Text in which nothing is keyed passes unchanged, whatever document text follows. */
  lemma {:induction false} RepairUnkeyed(a: string, b: string)
    requires NothingKeyed(a) && Stops(b)
    ensures Repair(a + b) == a + Repair(b)
  {
    if a == "" {
      assert a + b == b;
    } else {
      NoMatchAcross(a, b);
      FirstThen(a, b);
      RepairOne(a[0], a[1..] + b);
      TailUnkeyed(a);
      RepairUnkeyed(a[1..], b);
      FirstThen(a, Repair(b));
    }
  }

  lemma {:induction false} RepairGap(gap: string, b: string)
    requires IsGap(gap)
    ensures Repair(gap + b) == gap + Repair(b)
  {
    if gap == "" {
      assert gap + b == b;
    } else {
      FirstThen(gap, b);
      RepairPlain(gap[0], gap[1..] + b);
      RepairGap(gap[1..], b);
      FirstThen(gap, Repair(b));
    }
  }

  lemma RepairComma(gap: string, b: string)
    requires IsGap(gap)
    ensures Repair("," + (gap + b)) == "," + (gap + Repair(b))
  {
    RepairPlain(',', gap + b);
    RepairGap(gap, b);
  }

  lemma KeyTextMatches(key: string, style: Style, rest: string)
    requires IsKey(key)
    ensures MatchAt(KeyText(key, style) + rest) == Some(Match(style != Bare, |key|, style != Bare))
  {
    KeyTextFits(key, style, rest);
    MatcherIsExact(KeyText(key, style) + rest, Match(style != Bare, |key|, style != Bare));
  }

  lemma KeyTextFits(key: string, style: Style, rest: string)
    requires IsKey(key)
    ensures Fits(KeyText(key, style) + rest, Match(style != Bare, |key|, style != Bare))
  {
    match style
    case Bare => BareFits(key, ":" + rest);
    case Single => QuotedFits('\'', key, "':" + rest);
    case Double => QuotedFits('"', key, "\":" + rest);
  }

  lemma BareFits(key: string, rest: string)
    requires IsKey(key) && rest != "" && rest[0] == ':'
    ensures Fits(key + rest, Match(false, |key|, false))
  {}

  lemma QuotedFits(quote: char, key: string, rest: string)
    requires IsKey(key) && IsQuote(quote) && |rest| >= 2 && rest[0] == quote && rest[1] == ':'
    ensures Fits([quote] + (key + rest), Match(true, |key|, true))
  {
    assert forall i :: 1 <= i < 1 + |key| ==> ([quote] + (key + rest))[i] == key[i - 1];
  }

  /** A key in any style is rewritten to the key in double quotes. */
  lemma RepairKey(key: string, style: Style, rest: string)
    requires IsKey(key)
    ensures Repair(KeyText(key, style) + rest) == QuotedKey(key) + Repair(rest)
  {
    KeyTextMatches(key, style, rest);
    KeyTextParts(key, style, rest);
  }

  lemma KeyTextParts(key: string, style: Style, rest: string)
    ensures var s := KeyText(key, style) + rest;
      var m := Match(style != Bare, |key|, style != Bare);
      && m.Length() <= |s| && s[m.Start()..m.Start() + m.run] == key && s[m.Length()..] == rest
  {}

  lemma ScalarUnkeyed(t: Tree, gap: string)
    requires WellFormed(t) && Quiet(t) && !t.Array? && !t.Object?
    ensures NothingKeyed(Print(t, gap))
  {
    if t.Number? {
      NumberChars(t.text);
    }
  }

  /** Repairing a quiet document gives exactly its strict form. */
  lemma {:induction false} RepairPrinted(t: Tree, gap: string, rest: string)
    requires WellFormed(t) && Quiet(t) && IsGap(gap) && Stops(rest)
    ensures Repair(Print(t, gap) + rest) == Print(Strict(t), gap) + Repair(rest)
    decreases t
  {
    match t {
      case Array(items) => RepairArrayText(items, gap, rest);
      case Object(members) => RepairObjectText(members, gap, rest);
      case _ =>
        ScalarUnkeyed(t, gap);
        RepairUnkeyed(Print(t, gap), rest);
    }
  }

  lemma RepairArrayText(items: seq<Tree>, gap: string, rest: string)
    requires ItemsWell(items) && ItemsQuiet(items) && IsGap(gap) && Stops(rest)
    ensures Repair(("[" + PrintItems(items, gap) + "]") + rest)
      == ("[" + PrintItems(StrictItems(items), gap) + "]") + Repair(rest)
    decreases items, 1
  {
    if items == [] {
      RepairUnkeyed("[]", rest);
      assert "[" + PrintItems(items, gap) + "]" == "[]";
    } else {
      RepairItems(items, gap, rest);
      Wrapped("[", PrintItems(items, gap), "]", rest);
      Wrapped("[", PrintItems(StrictItems(items), gap), "]", Repair(rest));
      RepairPlain('[', PrintItems(items, gap) + ("]" + rest));
    }
  }

  lemma RepairObjectText(members: seq<Member>, gap: string, rest: string)
    requires MembersWell(members) && MembersQuiet(members) && IsGap(gap) && Stops(rest)
    ensures Repair(("{" + PrintMembers(members, gap) + "}") + rest)
      == ("{" + PrintMembers(StrictMembers(members), gap) + "}") + Repair(rest)
    decreases members, 1
  {
    if members == [] {
      RepairUnkeyed("{}", rest);
      assert "{" + PrintMembers(members, gap) + "}" == "{}";
    } else {
      RepairMembers(members, gap, rest);
      Wrapped("{", PrintMembers(members, gap), "}", rest);
      Wrapped("{", PrintMembers(StrictMembers(members), gap), "}", Repair(rest));
      RepairPlain('{', PrintMembers(members, gap) + ("}" + rest));
    }
  }

  lemma StrictFirst(ts: seq<Tree>)
    requires ts != []
    ensures var us := StrictItems(ts); |us| == |ts| && us[0] == Strict(ts[0]) && us[1..] == StrictItems(ts[1..])
  {}

  lemma {:induction false} RepairItems(ts: seq<Tree>, gap: string, rest: string)
    requires ts != [] && IsGap(gap) && ItemsQuiet(ts) && ItemsWell(ts)
    ensures Repair(PrintItems(ts, gap) + ("]" + rest)) == PrintItems(StrictItems(ts), gap) + ("]" + Repair(rest))
    decreases ts, 0
  {
    var us := StrictItems(ts);
    StrictFirst(ts);
    SplitItems(ts, gap, rest);
    ItemsFirst(ts);
    SplitItems(us, gap, Repair(rest));
    if |ts| == 1 {
      RepairPrinted(ts[0], gap, "]" + rest);
      RepairPlain(']', rest);
    } else {
      var more := PrintItems(ts[1..], gap) + ("]" + rest);
      RepairPrinted(ts[0], gap, "," + (gap + more));
      RepairComma(gap, more);
      RepairItems(ts[1..], gap, rest);
    }
  }

  lemma RepairMember(m: Member, gap: string, tail: string)
    requires IsKey(m.key) && WellFormed(m.value) && Quiet(m.value) && IsGap(gap) && Stops(tail)
    ensures Repair(MemberText(m, gap, tail))
      == MemberText(Member(m.key, Double, Strict(m.value)), gap, Repair(tail))
    decreases m
  {
    RepairKey(m.key, m.style, gap + (Print(m.value, gap) + tail));
    RepairGap(gap, Print(m.value, gap) + tail);
    RepairPrinted(m.value, gap, tail);
  }

  lemma StrictMembersFirst(ms: seq<Member>)
    requires ms != []
    ensures var us := StrictMembers(ms);
      |us| == |ms| && us[0] == Member(ms[0].key, Double, Strict(ms[0].value)) && us[1..] == StrictMembers(ms[1..])
  {}

  lemma {:induction false} RepairMembers(ms: seq<Member>, gap: string, rest: string)
    requires ms != [] && IsGap(gap) && MembersQuiet(ms)
    requires MembersWell(ms)
    ensures Repair(PrintMembers(ms, gap) + ("}" + rest)) == PrintMembers(StrictMembers(ms), gap) + ("}" + Repair(rest))
    decreases ms, 0
  {
    var m, us := ms[0], StrictMembers(ms);
    StrictMembersFirst(ms);
    SplitMembers(ms, gap, rest);
    MembersFirst(ms);
    SplitMembers(us, gap, Repair(rest));
    if |ms| == 1 {
      RepairMember(m, gap, "}" + rest);
      RepairPlain('}', rest);
    } else {
      var more := PrintMembers(ms[1..], gap) + ("}" + rest);
      RepairMember(m, gap, "," + (gap + more));
      RepairComma(gap, more);
      RepairMembers(ms[1..], gap, rest);
    }
  }

  // -------------------------------------------------------------------------
  // Repairing documents that are not quiet
  // -------------------------------------------------------------------------

  /** A reading that cannot be part of a document: it failed, or it stopped right before an
      alphanumeric or a colon. */
  predicate Derailed<T>(r: Option<(T, string)>) {
    r.None? || (r.value.1 != "" && (IsAlnum(r.value.1[0]) || r.value.1[0] == ':'))
  }

  lemma {:induction false} ScanKey(key: string, rest: string)
    requires forall i :: 0 <= i < |key| ==> IsAlnum(key[i])
    ensures ScanString(key + ("\":" + rest)) == Some((key, ":" + rest))
  {
    KeyIsBody(key);
    ScanBody(key, ":" + rest);
    assert "\"" + (":" + rest) == "\":" + rest;
  }

  /** The key of the match at the front of a string. */
  function KeyOf(s: string, m: Match): (key: string)
    requires Fits(s, m)
    ensures IsKey(key)
  {
    s[m.Start()..m.Start() + m.run]
  }

  lemma RepairMatched(s: string, m: Match)
    requires MatchAt(s) == Some(m)
    ensures Repair(s) == "\"" + (KeyOf(s, m) + ("\":" + Repair(s[m.Length()..])))
  {}

  /** If a match starts where a string body is being read, reading stops there. */
  lemma MatchEndsBody(s: string)
    requires MatchAt(s).Some?
    ensures Derailed(ScanString(Repair(s)))
  {
    var m := MatchAt(s).value;
    RepairMatched(s, m);
    assert Repair(s)[1..] == KeyOf(s, m) + ("\":" + Repair(s[m.Length()..]));
    assert KeyOf(s, m)[0] == Repair(s)[1..][0];
  }

  /** If a match starts at an escaped character, its quote is escaped and its key is read. */
  lemma MatchAfterBackslash(s: string)
    requires MatchAt(s).Some?
    ensures Derailed(ScanString("\\" + Repair(s)))
  {
    var m := MatchAt(s).value;
    RepairMatched(s, m);
    var body := KeyOf(s, m) + ("\":" + Repair(s[m.Length()..]));
    var u := "\\" + Repair(s);
    ScanKey(KeyOf(s, m), Repair(s[m.Length()..]));
    assert u[2..] == body;
    assert UnitLength(u) == 2;
  }

  lemma ScanUnit(unit: string, x: string)
    requires unit != "" && UnitLength(unit) == |unit|
    requires Derailed(ScanString(x))
    ensures Derailed(ScanString(unit + x))
  {
    UnitIsLocal(unit, x);
    assert (unit + x)[|unit|..] == x;
  }

  lemma OpenHead(c: char, s: string)
    requires IsAlnum(c) && !Closes([c] + s)
    ensures MatchAt([c] + s).None? && !Closes(s)
  {
    MatchByCloses([c] + s);
    assert ([c] + s)[1..] == s;
  }

  lemma KeyedOne(c: char, s: string, p: nat)
    requires MatchAt([c] + s).None?
    ensures Keyed([c] + s, p) <==> p >= 1 && Keyed(s, p - 1)
  {
    KeyedAfterOne([c] + s, p);
    assert ([c] + s)[1..] == s;
  }

  /** Text whose repair leaves a prefix alone and finds no keyed colon in it. */
  predicate Peels(a: string, b: string, p: nat) {
    && Repair(a + b) == a + Repair(b)
    && (Keyed(a + b, p) ==> p >= |a| && Keyed(b, p - |a|))
  }

  lemma PeelOne(c: char, b: string, p: nat)
    requires MatchAt([c] + b).None?
    ensures Peels([c], b, p)
  {
    RepairOne(c, b);
    KeyedOne(c, b, p);
  }

  lemma PeelThen(c: char, a: string, b: string, p: nat)
    requires Peels([c], a + b, p) && Peels(a, b, if p >= 1 then p - 1 else 0)
    ensures Peels([c] + a, b, p)
  {
    Regroup([c], a, b);
    PeelThenRepair(c, a, b);
  }

  lemma PeelThenRepair(c: char, a: string, b: string)
    requires Repair([c] + (a + b)) == [c] + Repair(a + b) && Repair(a + b) == a + Repair(b)
    ensures Repair(([c] + a) + b) == ([c] + a) + Repair(b)
  {
    Regroup([c], a, b);
    Regroup([c], a, Repair(b));
  }

  lemma PeelNothing(b: string, p: nat)
    ensures Peels("", b, p)
  {
    assert "" + b == b && "" + Repair(b) == Repair(b);
  }

  /** An alphanumeric run that does not end in a colon holds no match and no keyed colon. */
  lemma {:induction false} PeelOpenRun(a: string, b: string, p: nat)
    requires !Closes(a + b)
    requires forall i :: 0 <= i < |a| ==> IsAlnum(a[i])
    ensures Peels(a, b, p)
  {
    if a == "" {
      PeelNothing(b, p);
    } else {
      FirstThen(a, b);
      OpenHead(a[0], a[1..] + b);
      PeelOne(a[0], a[1..] + b, p);
      PeelOpenRun(a[1..], b, if p >= 1 then p - 1 else 0);
      PeelThen(a[0], a[1..], b, p);
      HeadTail(a);
    }
  }

  lemma PeelRun(a: string, b: string, p: nat)
    requires a != "" && MatchAt(a + b).None?
    requires forall i :: 0 <= i < |a| ==> IsAlnum(a[i])
    ensures Peels(a, b, p)
  {
    FirstThen(a, b);
    OpenTail(a[0], a[1..] + b);
    PeelOpenRun(a[1..], b, if p >= 1 then p - 1 else 0);
    PeelOne(a[0], a[1..] + b, p);
    PeelThen(a[0], a[1..], b, p);
    HeadTail(a);
  }

  lemma OpenTail(c: char, s: string)
    requires IsAlnum(c) && MatchAt([c] + s).None?
    ensures !Closes(s)
  {
    MatchByCloses([c] + s);
    assert ([c] + s)[1..] == s;
  }

  lemma PeelTwice(a: string, b: string, rest: string, p: nat)
    requires Peels(a, b + rest, p) && Peels(b, rest, if p >= |a| then p - |a| else 0)
    ensures Peels(a + b, rest, p)
  {
    Regroup(a, b, rest);
    Regroup(a, b, Repair(rest));
  }

  /** A backslash and the alphanumerics after it. */
  lemma PeelEscape(unit: string, b: string, p: nat)
    requires |unit| > 1 && unit[0] == '\\' && forall i :: 1 <= i < |unit| ==> IsAlnum(unit[i])
    requires MatchAt(unit[1..] + b).None?
    ensures Peels(unit, b, p)
  {
    FirstThen(unit, b);
    PeelOne(unit[0], unit[1..] + b, p);
    PeelRun(unit[1..], b, if p >= 1 then p - 1 else 0);
    HeadTail(unit);
    PeelThen(unit[0], unit[1..], b, p);
  }

  lemma PeelPair(unit: string, b: string, p: nat)
    requires |unit| == 2 && unit[0] == '\\' && MatchAt(unit[1..] + b).None?
    ensures Peels(unit, b, p)
  {
    FirstThen(unit, b);
    PeelOne(unit[0], unit[1..] + b, p);
    assert unit[1..] == [unit[1]];
    PeelOne(unit[1], b, if p >= 1 then p - 1 else 0);
    HeadTail(unit);
    PeelThen(unit[0], unit[1..], b, p);
  }

  /** A match that starts inside a unit, after one of its backslashes. */
  predicate Breaks(unit: string, b: string) {
    || (|unit| > 1 && MatchAt(unit[1..] + b).Some?)
    || (|unit| == 12 && MatchAt(unit[7..] + b).Some?)
  }

  predicate IsEscape(unit: string) {
    |unit| == 6 && unit[0] == '\\' && forall i :: 1 <= i < |unit| ==> IsAlnum(unit[i])
  }

  lemma TwoEscapes(unit: string)
    requires UnitLength(unit) == |unit| == 12
    ensures IsEscape(unit[..6]) && IsEscape(unit[6..])
  {
    assert IsHexEscape(unit, 0) && IsHexEscape(unit, 6);
    EscapeAt(unit, 0);
    EscapeAt(unit, 6);
    assert unit[6..12] == unit[6..] && unit[0..6] == unit[..6];
  }

  lemma EscapeAt(s: string, i: nat)
    requires IsHexEscape(s, i)
    ensures IsEscape(s[i..i + 6])
  {
    assert IsAlnum(s[i + 1]) && IsAlnum(s[i + 2]) && IsAlnum(s[i + 3]) && IsAlnum(s[i + 4]) && IsAlnum(s[i + 5]);
  }

  /** An escape followed by another. */
  lemma EscapeEnds(first: string, rest: string)
    requires IsEscape(first) && rest != "" && rest[0] == '\\'
    ensures MatchAt(first[1..] + rest).None?
  {
    RunEnds(first[1..] + rest, 5);
  }

  /** The first escape of a pair of surrogates. */
  lemma PeelFirstEscape(unit: string, b: string, p: nat)
    requires UnitLength(unit) == |unit| == 12
    ensures MatchAt(unit[1..] + b).None? && Peels(unit[..6], unit[6..] + b, p)
  {
    var first, rest := unit[..6], unit[6..] + b;
    TwoEscapes(unit);
    assert unit[1..] + b == first[1..] + rest;
    EscapeEnds(first, rest);
    PeelEscape(first, rest, p);
  }

  lemma PeelSurrogates(unit: string, b: string, p: nat)
    requires UnitLength(unit) == |unit| == 12 && MatchAt(unit[7..] + b).None?
    ensures Peels(unit, b, p)
  {
    PeelFirstEscape(unit, b, p);
    TwoEscapes(unit);
    assert unit[6..][1..] == unit[7..];
    PeelEscape(unit[6..], b, if p >= 6 then p - 6 else 0);
    SplitAt(unit, 6);
    PeelTwice(unit[..6], unit[6..], b, p);
  }

  /** Peel one unit of a string body off the text being repaired. */
  lemma PeelUnit(unit: string, b: string, p: nat)
    requires UnitLength(unit) == |unit| > 0 && MatchAt(unit + b).None? && !Breaks(unit, b)
    ensures Peels(unit, b, p)
  {
    if |unit| == 1 {
      assert unit == [unit[0]];
      PeelOne(unit[0], b, p);
    } else if |unit| == 2 {
      PeelPair(unit, b, p);
    } else if |unit| == 6 {
      PeelEscape(unit, b, p);
    } else {
      PeelSurrogates(unit, b, p);
    }
  }

  /** A keyed colon that breaks what follows a unit, or a match inside the unit, breaks the whole. */
  lemma UnitDerails(unit: string, b: string, p: nat)
    requires UnitLength(unit) == |unit| > 0 && Keyed(unit + b, p)
    requires p >= |unit| && Keyed(b, p - |unit|) ==> Derailed(ScanString(Repair(b)))
    ensures Derailed(ScanString(Repair(unit + b)))
  {
    if MatchAt(unit + b).Some? {
      MatchEndsBody(unit + b);
    } else if |unit| > 1 && MatchAt(unit[1..] + b).Some? {
      EscapeDerails(unit, b);
    } else if |unit| == 12 && MatchAt(unit[7..] + b).Some? {
      LoneSurrogateDerails(unit, b);
    } else {
      PeelUnit(unit, b, p);
      ScanUnit(unit, Repair(b));
    }
  }

  /** A keyed colon anywhere in a string body breaks the string when the text is repaired. */
  lemma {:induction false} BodyDerails(raw: string, tail: string, p: nat)
    requires IsBody(raw) && p < |raw| && Keyed(raw + tail, p)
    ensures Derailed(ScanString(Repair(raw + tail)))
    decreases |raw|
  {
    var n := UnitLength(raw);
    UnitIsWhole(raw);
    CutFirst(raw, tail, n);
    if p >= n && Keyed(raw[n..] + tail, p - n) {
      BodyDerails(raw[n..], tail, p - n);
    }
    UnitDerails(raw[..n], raw[n..] + tail, p);
  }

  /** A match that starts in the second escape of a pair of surrogates leaves the first alone. */
  lemma LoneSurrogateDerails(unit: string, b: string)
    requires UnitLength(unit) == |unit| == 12 && MatchAt(unit[7..] + b).Some?
    ensures Derailed(ScanString(Repair(unit + b)))
  {
    PeelFirstEscape(unit, b, 0);
    SplitAt(unit, 6);
    Regroup(unit[..6], unit[6..], b);
    FirstThen(unit[6..], b);
    assert unit[6..][1..] == unit[7..];
    RepairPlain('\\', unit[7..] + b);
    RepairMatched(unit[7..] + b, MatchAt(unit[7..] + b).value);
    var x := Repair(unit + b);
    assert x == unit[..6] + (['\\'] + Repair(unit[7..] + b));
    HighAlone(unit, x);
  }

  lemma HighAlone(unit: string, x: string)
    requires UnitLength(unit) == |unit| == 12 && |x| > 7 && x[..6] == unit[..6] && x[7] == '"'
    ensures ScanString(x) == None
  {
    assert forall i :: 0 <= i < 6 ==> x[i] == x[..6][i] == unit[..6][i] == unit[i];
    assert IsHexEscape(x, 0) && HexCode(x, 0) == HexCode(unit, 0) && !IsHexEscape(x, 6);
  }

  lemma EscapeDerails(unit: string, b: string)
    requires unit != "" && unit[0] == '\\' && MatchAt(unit + b).None? && MatchAt(unit[1..] + b).Some?
    ensures Derailed(ScanString(Repair(unit + b)))
  {
    FirstThen(unit, b);
    RepairOne(unit[0], unit[1..] + b);
    MatchAfterBackslash(unit[1..] + b);
  }

  lemma UnitIsWhole(raw: string)
    requires UnitLength(raw) > 0
    ensures UnitLength(raw[..UnitLength(raw)]) == UnitLength(raw)
  {}

  lemma ReadQuoted(x: string, room: nat)
    requires Derailed(ScanString(x))
    ensures Derailed(ParseValue("\"" + x, room))
  {
    assert ("\"" + x)[1..] == x;
  }

  lemma QuotedThen(raw: string, rest: string)
    ensures Quoted(raw) + rest == "\"" + (raw + ("\"" + rest))
  {}

  lemma MatchedQuoteDerails(s: string, room: nat)
    requires MatchAt(s).Some?
    ensures Derailed(ParseValue(Repair(s), room))
  {
    var m := MatchAt(s).value;
    RepairMatched(s, m);
    ScanKey(KeyOf(s, m), Repair(s[m.Length()..]));
    ReadQuoted(KeyOf(s, m) + ("\":" + Repair(s[m.Length()..])), room);
  }

  lemma TextDerails(raw: string, rest: string, room: nat)
    requires IsBody(raw) && !NothingKeyed(Quoted(raw))
    ensures Derailed(ParseValue(Repair(Quoted(raw) + rest), room))
  {
    var p: nat :| p < |Quoted(raw)| && Keyed(Quoted(raw), p);
    KeyedPrefix(Quoted(raw), rest, p);
    var body := raw + ("\"" + rest);
    var s := "\"" + body;
    QuotedThen(raw, rest);
    if MatchAt(s).Some? {
      MatchedQuoteDerails(s, room);
    } else {
      PeelOne('"', body, p);
      assert body[|raw|] == '"';
      BodyDerails(raw, "\"" + rest, p - 1);
      ReadQuoted(Repair(body), room);
    }
  }

  lemma DerailedItem(s: string, room: nat)
    requires Derailed(ParseValue(s, room))
    ensures ParseItems(s, room) == None
  {}

  lemma DerailedMember(s: string, key: string, body: string, room: nat)
    requires ParseKey(s) == Some((key, body)) && Derailed(ParseValue(body, room))
    ensures ParseMembers(s, room) == None
  {}

  /** A document with a keyed colon inside some string cannot be read once it is repaired. */
  lemma {:induction false} TreeDerails(t: Tree, gap: string, rest: string, room: nat)
    requires WellFormed(t) && !Quiet(t) && IsGap(gap)
    ensures Derailed(ParseValue(Repair(Print(t, gap) + rest), room))
    decreases t
  {
    match t {
      case Text(raw) => TextDerails(raw, rest, room);
      case Array(items) => ArrayDerails(items, gap, rest, room);
      case Object(members) => ObjectDerails(members, gap, rest, room);
      case _ =>
    }
  }

  lemma ArrayDerails(items: seq<Tree>, gap: string, rest: string, room: nat)
    requires ItemsWell(items) && !ItemsQuiet(items) && IsGap(gap)
    ensures ParseValue(Repair(("[" + PrintItems(items, gap) + "]") + rest), room) == None
    decreases items, 1
  {
    var u := PrintItems(items, gap) + ("]" + rest);
    Wrapped("[", PrintItems(items, gap), "]", rest);
    RepairPlain('[', u);
    SplitItems(items, gap, rest);
    PrintHead(items[0], gap);
    RepairHead(u);
    if room > 1 {
      ItemsDerail(items, gap, rest, room - 1);
    }
    ReadArray(Repair(u), false, [], "", room);
  }

  lemma MembersHead(ms: seq<Member>, gap: string, rest: string)
    requires ms != [] && MembersWell(ms)
    ensures var u := Repair(PrintMembers(ms, gap) + ("}" + rest)); u != "" && u[0] == '"'
  {
    var tail := if |ms| == 1 then "}" + rest else "," + (gap + (PrintMembers(ms[1..], gap) + ("}" + rest)));
    SplitMembers(ms, gap, rest);
    RepairKey(ms[0].key, ms[0].style, gap + (Print(ms[0].value, gap) + tail));
  }

  lemma ObjectDerails(members: seq<Member>, gap: string, rest: string, room: nat)
    requires MembersWell(members) && !MembersQuiet(members) && IsGap(gap)
    ensures ParseValue(Repair(("{" + PrintMembers(members, gap) + "}") + rest), room) == None
    decreases members, 1
  {
    var u := PrintMembers(members, gap) + ("}" + rest);
    Wrapped("{", PrintMembers(members, gap), "}", rest);
    RepairPlain('{', u);
    MembersHead(members, gap, rest);
    if room > 1 {
      MembersDerail(members, gap, rest, room - 1);
    }
    ReadObject(Repair(u), false, [], "", room);
  }

  lemma {:induction false} StrictIsDouble(t: Tree)
    requires WellFormed(t)
    ensures AllDouble(Strict(t)) && WellFormed(Strict(t)) && Meaning(Strict(t)) == Meaning(t)
    decreases t
  {
    match t {
      case Array(items) => StrictItemsDouble(items);
      case Object(members) => StrictMembersDouble(members);
      case _ =>
    }
  }

  lemma {:induction false} StrictItemsDouble(ts: seq<Tree>)
    requires ItemsWell(ts)
    ensures ItemsDouble(StrictItems(ts)) && ItemsWell(StrictItems(ts))
    ensures ItemMeanings(StrictItems(ts)) == ItemMeanings(ts)
    decreases ts
  {
    if ts != [] {
      StrictIsDouble(ts[0]);
      StrictItemsDouble(ts[1..]);
      assert StrictItems(ts)[1..] == StrictItems(ts[1..]);
    }
  }

  lemma {:induction false} StrictMembersDouble(ms: seq<Member>)
    requires MembersWell(ms)
    ensures MembersDouble(StrictMembers(ms)) && MembersWell(StrictMembers(ms))
    ensures MemberMeanings(StrictMembers(ms)) == MemberMeanings(ms)
    decreases ms
  {
    if ms != [] {
      StrictIsDouble(ms[0].value);
      StrictMembersDouble(ms[1..]);
      assert StrictMembers(ms)[1..] == StrictMembers(ms[1..]);
    }
  }

  lemma {:induction false} StrictIsShallow(t: Tree, room: nat)
    ensures Shallow(Strict(t), room) <==> Shallow(t, room)
    decreases t
  {
    match t {
      case Array(items) =>
        if room > 1 {
          StrictItemsShallow(items, room - 1);
        }
      case Object(members) =>
        if room > 1 {
          StrictMembersShallow(members, room - 1);
        }
      case _ =>
    }
  }

  lemma {:induction false} StrictItemsShallow(ts: seq<Tree>, room: nat)
    ensures ItemsShallow(StrictItems(ts), room) <==> ItemsShallow(ts, room)
    decreases ts
  {
    if ts != [] {
      StrictIsShallow(ts[0], room);
      StrictItemsShallow(ts[1..], room);
      StrictFirst(ts);
      ShallowFirst(ts, room);
      ShallowFirst(StrictItems(ts), room);
    }
  }

  lemma {:induction false} StrictMembersShallow(ms: seq<Member>, room: nat)
    ensures MembersShallow(StrictMembers(ms), room) <==> MembersShallow(ms, room)
    decreases ms
  {
    if ms != [] {
      StrictIsShallow(ms[0].value, room);
      StrictMembersShallow(ms[1..], room);
      StrictMembersFirst(ms);
      ShallowFirstMember(ms, room);
      ShallowFirstMember(StrictMembers(ms), room);
    }
  }

  lemma {:induction false} ItemsDerail(ts: seq<Tree>, gap: string, rest: string, room: nat)
    requires ts != [] && IsGap(gap) && ItemsWell(ts) && !ItemsQuiet(ts)
    ensures ParseItems(Repair(PrintItems(ts, gap) + ("]" + rest)), room) == None
    decreases ts, 0
  {
    SplitItems(ts, gap, rest);
    ItemsFirst(ts);
    if !Quiet(ts[0]) {
      var after := if |ts| == 1 then "]" + rest else "," + (gap + (PrintItems(ts[1..], gap) + ("]" + rest)));
      TreeDerails(ts[0], gap, after, room);
      DerailedItem(Repair(PrintItems(ts, gap) + ("]" + rest)), room);
    } else {
      var more := PrintItems(ts[1..], gap) + ("]" + rest);
      ItemsDerail(ts[1..], gap, rest, room);
      RepairPrinted(ts[0], gap, "," + (gap + more));
      RepairComma(gap, more);
      StrictIsDouble(ts[0]);
      ReadPrinted(Strict(ts[0]), gap, "," + (gap + Repair(more)), room);
      GapBeforeItems(gap, Repair(more), room);
      NextItem(Repair(PrintItems(ts, gap) + ("]" + rest)), Shallow(Strict(ts[0]), room), Meaning(ts[0]),
               gap + Repair(more), false, [], "", room);
    }
  }

  lemma LoudMember(m: Member, gap: string, tail: string, room: nat)
    requires IsKey(m.key) && WellFormed(m.value) && !Quiet(m.value) && IsGap(gap)
    ensures ParseMembers(Repair(MemberText(m, gap, tail)), room) == None
    decreases m
  {
    var body := Print(m.value, gap) + tail;
    RepairKey(m.key, m.style, gap + body);
    RepairGap(gap, body);
    ReadQuotedKey(m.key, gap + Repair(body));
    GapBeforeValue(gap, Repair(body), room);
    TreeDerails(m.value, gap, tail, room);
    DerailedMember(Repair(MemberText(m, gap, tail)), m.key, gap + Repair(body), room);
  }

  lemma {:induction false} MembersDerail(ms: seq<Member>, gap: string, rest: string, room: nat)
    requires ms != [] && IsGap(gap) && MembersWell(ms) && !MembersQuiet(ms)
    ensures ParseMembers(Repair(PrintMembers(ms, gap) + ("}" + rest)), room) == None
    decreases ms, 0
  {
    SplitMembers(ms, gap, rest);
    MembersFirst(ms);
    if !Quiet(ms[0].value) {
      var after := if |ms| == 1 then "}" + rest else "," + (gap + (PrintMembers(ms[1..], gap) + ("}" + rest)));
      LoudMember(ms[0], gap, after, room);
    } else {
      var more := PrintMembers(ms[1..], gap) + ("}" + rest);
      MembersDerail(ms[1..], gap, rest, room);
      RepairMember(ms[0], gap, "," + (gap + more));
      RepairComma(gap, more);
      StrictIsDouble(ms[0].value);
      ReadNextMember(Repair(PrintMembers(ms, gap) + ("}" + rest)),
                     Member(ms[0].key, Double, Strict(ms[0].value)), gap, Repair(more), false, [], "", room);
    }
  }

  // -------------------------------------------------------------------------
  // Results
  // -------------------------------------------------------------------------

  /** Every quiet document is repaired to its strict form, character for character. */
  lemma QuietDocumentsAreRepaired(t: Tree, gap: string)
    requires WellFormed(t) && Quiet(t) && IsGap(gap)
    ensures Repair(Print(t, gap)) == Print(Strict(t), gap)
  {
    RepairPrinted(t, gap, "");
    assert Print(t, gap) + "" == Print(t, gap);
    assert Print(Strict(t), gap) + "" == Print(Strict(t), gap);
  }

  lemma ParseIsValue(s: string, tail: string)
    requires IsGap(tail)
    ensures ParseValue(s, NESTING) == None ==> Parse(s) == None
    ensures Derailed(ParseValue(s, NESTING)) ==> Parse(s) == None
    ensures forall v: Value :: ParseValue(s, NESTING) == Some((v, tail)) ==> Parse(s) == Some(v)
  {
    SkipGap(tail, "");
    assert tail + "" == tail;
  }

  lemma GapStops(gap: string)
    requires IsGap(gap)
    ensures Stops(gap) && Repair(gap) == gap
  {
    RepairGap(gap, "");
    assert gap + "" == gap;
  }

  /** What a request document means to the server, whatever the style of each key and the white space
      around: its meaning, if it is not nested too deep and no key needs repair or no string holds
      a key-like colon; otherwise an error. */
  lemma RequestMeaning(lead: string, t: Tree, gap: string, tail: string)
    requires WellFormed(t) && IsGap(lead) && IsGap(gap) && IsGap(tail)
    ensures ParseRequest(lead + (Print(t, gap) + tail))
      == if Shallow(t, NESTING) && (AllDouble(t) || Quiet(t)) then Some(Meaning(t)) else None
  {
    var s := Print(t, gap) + tail;
    GapStops(tail);
    ReadPrinted(t, gap, tail, NESTING);
    GapBeforeValue(lead, s, NESTING);
    ParseIsValue(lead + s, tail);
    if !(AllDouble(t) && Shallow(t, NESTING)) {
      RepairGap(lead, s);
      GapBeforeValue(lead, Repair(s), NESTING);
      ParseIsValue(lead + Repair(s), tail);
      if Quiet(t) {
        RepairPrinted(t, gap, tail);
        StrictIsDouble(t);
        StrictIsShallow(t, NESTING);
        ReadPrinted(Strict(t), gap, tail, NESTING);
      } else {
        TreeDerails(t, gap, tail, NESTING);
      }
    }
  }

  lemma PrintAlone(t: Tree, gap: string)
    ensures "" + (Print(t, gap) + "") == Print(t, gap)
  {}

  /** In particular an object with all its keys in double quotes is understood as its meaning. */
  lemma StrictObject(members: seq<Member>, gap: string)
    requires MembersWell(members) && MembersDouble(members) && MembersShallow(members, NESTING - 1) && IsGap(gap)
    ensures ParseRequest(Print(Object(members), gap)) == Some(VObject(MemberMeanings(members)))
  {
    ReadObjectText(members, gap, "", NESTING);
    StrictText("{" + PrintMembers(members, gap) + "}", VObject(MemberMeanings(members)));
  }

  lemma StrictText(s: string, v: Value)
    requires ParseValue(s + "", NESTING) == Some((v, ""))
    ensures ParseRequest(s) == Some(v)
  {
    assert s + "" == s;
    ParseIsValue(s, "");
  }

  /** So the quoting style of the keys is immaterial for quiet documents. */
  lemma StylesAgree(t: Tree, gap: string)
    requires WellFormed(t) && Quiet(t) && IsGap(gap)
    ensures ParseRequest(Print(t, gap)) == ParseRequest(Print(Strict(t), gap))
      == if Shallow(t, NESTING) then Some(Meaning(t)) else None
  {
    PrintAlone(t, gap);
    PrintAlone(Strict(t), gap);
    RequestMeaning("", t, gap, "");
    StrictIsDouble(t);
    StrictIsShallow(t, NESTING);
    RequestMeaning("", Strict(t), gap, "");
  }

  /** Arrays nested `depth` deep. */
  function Nest(depth: nat): Tree { if depth == 0 then Null else Array([Nest(depth - 1)]) }

  lemma {:induction false} NestIsWell(depth: nat, room: nat)
    ensures WellFormed(Nest(depth)) && AllDouble(Nest(depth))
    ensures room > 0 ==> (Shallow(Nest(depth), room) <==> depth < room)
  {
    if depth > 0 {
      NestIsWell(depth - 1, if room > 0 then room - 1 else 0);
      assert Nest(depth).items[0] == Nest(depth - 1);
    }
  }

  /** Nesting is accepted up to a depth of 127. */
  lemma NestingIs127(depth: nat)
    ensures ParseRequest(Print(Nest(depth), "")).Some? <==> depth <= 127
  {
    NestIsWell(depth, NESTING);
    PrintAlone(Nest(depth), "");
    RequestMeaning("", Nest(depth), "", "");
  }
}
