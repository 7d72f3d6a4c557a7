/** The grammar of JSON texts (RFC 8259, sections 2 to 5): the reader accepts exactly its texts, up
    to a depth, and reads each as what it denotes. */
module JsonGrammar {
  import opened Basics
  import opened JsonReader
  import LenientProofs
  import LenientJson
  import KeyRepair

  /** A value with the white space between its tokens, nothing of the text left out. */
  datatype Node =
    | Null
    | Bool(b: bool)
    | Number(text: string)
    | Text(raw: string)
    | NoItems(gap: string)
    | Array(items: Items)
    | NoMembers(gap: string)
    | Object(members: Members)

  datatype Element = Element(lead: string, node: Node, trail: string)

  datatype Items = LastItem(element: Element) | NextItem(element: Element, items: Items)

  datatype Member = Member(lead: string, key: string, gap: string, value: Element)

  datatype Members = LastMember(member: Member) | NextMember(member: Member, members: Members)

  predicate IsGap(s: string) { forall i :: 0 <= i < |s| ==> s[i] in " \t\n\r" }

  predicate Valid(n: Node) {
    match n
    case Null => true
    case Bool(_) => true
    case Number(text) => IsNumber(text)
    case Text(raw) => IsBody(raw)
    case NoItems(gap) => IsGap(gap)
    case Array(items) => ItemsValid(items)
    case NoMembers(gap) => IsGap(gap)
    case Object(members) => MembersValid(members)
  }

  predicate ElementValid(e: Element) { IsGap(e.lead) && Valid(e.node) && IsGap(e.trail) }

  predicate ItemsValid(items: Items) {
    ElementValid(items.element) && (items.NextItem? ==> ItemsValid(items.items))
  }

  predicate MemberValid(m: Member) { IsGap(m.lead) && IsBody(m.key) && IsGap(m.gap) && ElementValid(m.value) }

  predicate MembersValid(members: Members) {
    MemberValid(members.member) && (members.NextMember? ==> MembersValid(members.members))
  }

  // -------------------------------------------------------------------------
  // Text
  // -------------------------------------------------------------------------

  function Print(n: Node): string {
    match n
    case Null => "null"
    case Bool(b) => if b then "true" else "false"
    case Number(text) => text
    case Text(raw) => "\"" + raw + "\""
    case NoItems(gap) => "[" + (gap + "]")
    case Array(items) => "[" + (ItemsText(items) + "]")
    case NoMembers(gap) => "{" + (gap + "}")
    case Object(members) => "{" + (MembersText(members) + "}")
  }

  function ElementText(e: Element): string { e.lead + (Print(e.node) + e.trail) }

  function ItemsText(items: Items): string {
    match items
    case LastItem(e) => ElementText(e)
    case NextItem(e, more) => ElementText(e) + ("," + ItemsText(more))
  }

  function KeyText(m: Member): string { m.lead + ("\"" + (m.key + ("\"" + (m.gap + ":")))) }

  function MemberText(m: Member): string { KeyText(m) + ElementText(m.value) }

  function MembersText(members: Members): string {
    match members
    case LastMember(m) => MemberText(m)
    case NextMember(m, more) => MemberText(m) + ("," + MembersText(more))
  }

  // -------------------------------------------------------------------------
  // Meaning and depth
  // -------------------------------------------------------------------------

  function Denotes(n: Node): Value {
    match n
    case Null => VNull
    case Bool(b) => VBool(b)
    case Number(text) => VNumber(text)
    case Text(raw) => VString(raw)
    case NoItems(_) => VArray([])
    case Array(items) => VArray(ItemsDenote(items))
    case NoMembers(_) => VObject([])
    case Object(members) => VObject(MembersDenote(members))
  }

  function ItemsDenote(items: Items): seq<Value> {
    var v := Denotes(items.element.node);
    if items.NextItem? then [v] + ItemsDenote(items.items) else [v]
  }

  function MembersDenote(members: Members): seq<Entry> {
    var v := Entry(members.member.key, Denotes(members.member.value.node));
    if members.NextMember? then [v] + MembersDenote(members.members) else [v]
  }

  /** How many arrays and objects are open at once. */
  function Depth(n: Node): nat {
    match n
    case NoItems(_) => 1
    case Array(items) => 1 + ItemsDepth(items)
    case NoMembers(_) => 1
    case Object(members) => 1 + MembersDepth(members)
    case _ => 0
  }

  function Max(a: nat, b: nat): nat { if a < b then b else a }

  function ItemsDepth(items: Items): nat {
    var d := Depth(items.element.node);
    if items.NextItem? then Max(d, ItemsDepth(items.items)) else d
  }

  function MembersDepth(members: Members): nat {
    var d := Depth(members.member.value.node);
    if members.NextMember? then Max(d, MembersDepth(members.members)) else d
  }

  // -------------------------------------------------------------------------
  // Every text of the grammar is read
  // -------------------------------------------------------------------------

  lemma {:induction false} SkipTwice(s: string)
    ensures SkipWs(SkipWs(s)) == SkipWs(s)
  {
    if s != "" && IsWs(s[0]) {
      SkipTwice(s[1..]);
    }
  }

  lemma SkippedItems(s: string, room: nat)
    ensures ParseItems(SkipWs(s), room) == ParseItems(s, room)
  {
    SkipTwice(s);
    assert ParseValue(SkipWs(s), room) == ParseValue(s, room);
  }

  lemma SkippedMembers(s: string, room: nat)
    ensures ParseMembers(SkipWs(s), room) == ParseMembers(s, room)
  {
    SkipTwice(s);
    assert ParseKey(SkipWs(s)) == ParseKey(s);
  }

  /** Every value starts with a character of its own. */
  lemma NodeHead(n: Node, rest: string)
    requires Valid(n)
    ensures var s := Print(n) + rest;
      s != "" && !IsWs(s[0]) && s[0] != ']' && SkipWs(s) == s
  {
    if n.Number? {
      LenientProofs.NumberChars(n.text);
    }
  }

  /** What ends an element: the end, a comma or a closing bracket. */
  predicate Ends(rest: string) { rest == "" || rest[0] == ',' || rest[0] == ']' || rest[0] == '}' }

  lemma GapStops(trail: string, rest: string)
    requires IsGap(trail) && Ends(rest)
    ensures LenientProofs.Stops(trail + rest) && SkipWs(trail + rest) == rest
  {
    LenientProofs.SkipGap(trail, rest);
  }

  lemma {:induction false} ReadElement(e: Element, rest: string, room: nat)
    requires ElementValid(e) && Depth(e.node) < room && Ends(rest)
    ensures ParseValue(ElementText(e) + rest, room) == Some((Denotes(e.node), e.trail + rest))
    ensures SkipWs(e.trail + rest) == rest
    decreases e
  {
    GapStops(e.trail, rest);
    ReadNode(e.node, e.trail + rest, room);
    ElementParts(e, rest);
    LenientProofs.GapBeforeValue(e.lead, Print(e.node) + (e.trail + rest), room);
  }

  lemma ElementParts(e: Element, rest: string)
    ensures ElementText(e) + rest == e.lead + (Print(e.node) + (e.trail + rest))
  {}

  lemma {:induction false} ReadNode(n: Node, rest: string, room: nat)
    requires Valid(n) && Depth(n) < room && LenientProofs.Stops(rest)
    ensures ParseValue(Print(n) + rest, room) == Some((Denotes(n), rest))
    decreases n
  {
    match n
    case Null => LenientProofs.ReadNull(rest, room);
    case Bool(b) => LenientProofs.ReadBool(b, rest, room);
    case Number(text) => LenientProofs.ReadNumber(text, rest, room);
    case Text(raw) => LenientProofs.ReadText(raw, rest, room);
    case NoItems(gap) => ReadNoItems(gap, rest, room);
    case Array(items) =>
      ReadItems(items, rest, room - 1);
      ReadArray(items, rest, room);
    case NoMembers(gap) => ReadNoMembers(gap, rest, room);
    case Object(members) =>
      ReadMembers(members, rest, room - 1);
      ReadObject(members, rest, room);
  }

  lemma ReadNoItems(gap: string, rest: string, room: nat)
    requires IsGap(gap) && room > 1
    ensures ParseValue(("[" + (gap + "]")) + rest, room) == Some((VArray([]), rest))
  {
    assert (("[" + (gap + "]")) + rest)[1..] == gap + ("]" + rest);
    LenientProofs.SkipGap(gap, "]" + rest);
    assert ("]" + rest)[1..] == rest;
  }

  lemma ReadNoMembers(gap: string, rest: string, room: nat)
    requires IsGap(gap) && room > 1
    ensures ParseValue(("{" + (gap + "}")) + rest, room) == Some((VObject([]), rest))
  {
    assert (("{" + (gap + "}")) + rest)[1..] == gap + ("}" + rest);
    LenientProofs.SkipGap(gap, "}" + rest);
    assert ("}" + rest)[1..] == rest;
  }

  lemma OpenArray(u: string, vs: seq<Value>, rest: string, room: nat)
    requires room > 1 && ParseItems(u, room - 1) == Some((vs, rest)) && SkipWs(u) != "" && SkipWs(u)[0] != ']'
    ensures ParseValue("[" + u, room) == Some((VArray(vs), rest))
  {
    assert ("[" + u)[1..] == u;
    SkippedItems(u, room - 1);
  }

  lemma ReadArray(items: Items, rest: string, room: nat)
    requires ItemsValid(items) && room > 1
    requires ParseItems(ItemsText(items) + ("]" + rest), room - 1) == Some((ItemsDenote(items), rest))
    ensures ParseValue(("[" + (ItemsText(items) + "]")) + rest, room) == Some((VArray(ItemsDenote(items)), rest))
  {
    var u := ItemsText(items) + ("]" + rest);
    assert ("[" + (ItemsText(items) + "]")) + rest == "[" + u;
    ItemsHead(items, "]" + rest);
    OpenArray(u, ItemsDenote(items), rest, room);
  }

  lemma ItemsHead(items: Items, close: string)
    requires ItemsValid(items)
    ensures var u := SkipWs(ItemsText(items) + close); u != "" && u[0] != ']'
  {
    var e := items.element;
    var after := AfterItem(items, close);
    ItemsParts(items, close);
    ElementParts(e, after);
    NodeHead(e.node, e.trail + after);
    LenientProofs.SkipGap(e.lead, Print(e.node) + (e.trail + after));
  }

  // One step of the reader's loops.

  lemma EndItems(s: string, v: Value, after: string, rest: string, room: nat)
    requires ParseValue(s, room) == Some((v, after)) && SkipWs(after) == "]" + rest
    ensures ParseItems(s, room) == Some(([v], rest))
  {
    assert ("]" + rest)[1..] == rest;
  }

  lemma MoreItems(s: string, v: Value, after: string, u: string, vs: seq<Value>, rest: string, room: nat)
    requires ParseValue(s, room) == Some((v, after)) && SkipWs(after) == "," + u
    requires ParseItems(u, room) == Some((vs, rest))
    ensures ParseItems(s, room) == Some(([v] + vs, rest))
  {
    assert ("," + u)[1..] == u;
  }

  lemma EndMembers(s: string, key: string, body: string, v: Value, after: string, rest: string, room: nat)
    requires ParseKey(s) == Some((key, body))
    requires ParseValue(body, room) == Some((v, after)) && SkipWs(after) == "}" + rest
    ensures ParseMembers(s, room) == Some(([Entry(key, v)], rest))
  {
    assert ("}" + rest)[1..] == rest;
  }

  lemma MoreMembers(s: string, key: string, body: string, v: Value, after: string, u: string, vs: seq<Entry>,
                    rest: string, room: nat)
    requires ParseKey(s) == Some((key, body))
    requires ParseValue(body, room) == Some((v, after)) && SkipWs(after) == "," + u
    requires ParseMembers(u, room) == Some((vs, rest))
    ensures ParseMembers(s, room) == Some(([Entry(key, v)] + vs, rest))
  {
    assert ("," + u)[1..] == u;
  }

  /** A list of items before a closing text: its first element and what follows. */
  function AfterItem(items: Items, close: string): string {
    if items.NextItem? then "," + (ItemsText(items.items) + close) else close
  }

  lemma ItemsParts(items: Items, close: string)
    ensures ItemsText(items) + close == ElementText(items.element) + AfterItem(items, close)
  {}

  lemma {:induction false} ReadItems(items: Items, rest: string, room: nat)
    requires ItemsValid(items) && ItemsDepth(items) < room
    ensures ParseItems(ItemsText(items) + ("]" + rest), room) == Some((ItemsDenote(items), rest))
    decreases items
  {
    var e := items.element;
    var after := AfterItem(items, "]" + rest);
    ReadElement(e, after, room);
    ItemsParts(items, "]" + rest);
    if items.NextItem? {
      ReadItems(items.items, rest, room);
      MoreItems(ElementText(e) + after, Denotes(e.node), e.trail + after, ItemsText(items.items) + ("]" + rest),
                ItemsDenote(items.items), rest, room);
    } else {
      EndItems(ElementText(e) + after, Denotes(e.node), e.trail + after, rest, room);
    }
  }

  lemma OpenObject(u: string, ms: seq<Entry>, rest: string, room: nat)
    requires room > 1 && ParseMembers(u, room - 1) == Some((ms, rest)) && SkipWs(u) != "" && SkipWs(u)[0] == '"'
    ensures ParseValue("{" + u, room) == Some((VObject(ms), rest))
  {
    assert ("{" + u)[1..] == u;
    SkippedMembers(u, room - 1);
  }

  lemma ReadObject(members: Members, rest: string, room: nat)
    requires MembersValid(members) && room > 1
    requires ParseMembers(MembersText(members) + ("}" + rest), room - 1) == Some((MembersDenote(members), rest))
    ensures ParseValue(("{" + (MembersText(members) + "}")) + rest, room)
      == Some((VObject(MembersDenote(members)), rest))
  {
    var u := MembersText(members) + ("}" + rest);
    assert ("{" + (MembersText(members) + "}")) + rest == "{" + u;
    MembersHead(members, "}" + rest);
    OpenObject(u, MembersDenote(members), rest, room);
  }

  lemma MembersHead(members: Members, close: string)
    requires MembersValid(members)
    ensures var u := SkipWs(MembersText(members) + close); u != "" && u[0] == '"'
  {
    MembersParts(members, close);
    KeyHead(members.member, ElementText(members.member.value) + AfterMember(members, close));
  }

  lemma KeyHead(m: Member, rest: string)
    requires IsGap(m.lead)
    ensures SkipWs(KeyText(m) + rest) == "\"" + (m.key + ("\"" + (m.gap + (":" + rest))))
  {
    var s := "\"" + (m.key + ("\"" + (m.gap + (":" + rest))));
    assert KeyText(m) + rest == m.lead + s;
    LenientProofs.SkipGap(m.lead, s);
  }

  lemma ReadKey(m: Member, rest: string)
    requires MemberValid(m)
    ensures ParseKey(KeyText(m) + rest) == Some((m.key, rest))
  {
    KeyHead(m, rest);
    var t := SkipWs(KeyText(m) + rest);
    assert t[1..] == m.key + ("\"" + (m.gap + (":" + rest)));
    LenientProofs.ScanBody(m.key, m.gap + (":" + rest));
    LenientProofs.SkipGap(m.gap, ":" + rest);
    assert (":" + rest)[1..] == rest;
  }

  function AfterMember(members: Members, close: string): string {
    if members.NextMember? then "," + (MembersText(members.members) + close) else close
  }

  lemma MembersParts(members: Members, close: string)
    ensures MembersText(members) + close
      == KeyText(members.member) + (ElementText(members.member.value) + AfterMember(members, close))
  {}

  lemma {:induction false} ReadMembers(members: Members, rest: string, room: nat)
    requires MembersValid(members) && MembersDepth(members) < room
    ensures ParseMembers(MembersText(members) + ("}" + rest), room) == Some((MembersDenote(members), rest))
    decreases members
  {
    var m := members.member;
    var after := AfterMember(members, "}" + rest);
    var body := ElementText(m.value) + after;
    ReadElement(m.value, after, room);
    MembersParts(members, "}" + rest);
    ReadKey(m, body);
    if members.NextMember? {
      ReadMembers(members.members, rest, room);
      MoreMembers(KeyText(m) + body, m.key, body, Denotes(m.value.node), m.value.trail + after,
                  MembersText(members.members) + ("}" + rest), MembersDenote(members.members), rest, room);
    } else {
      EndMembers(KeyText(m) + body, m.key, body, Denotes(m.value.node), m.value.trail + after, rest, room);
    }
  }

  // -------------------------------------------------------------------------
  // Whatever is read is a text of the grammar
  // -------------------------------------------------------------------------

  lemma {:induction false} GapOf(s: string) returns (gap: string)
    ensures IsGap(gap) && s == gap + SkipWs(s)
  {
    gap := "";
    if s != "" && IsWs(s[0]) {
      var more := GapOf(s[1..]);
      gap := [s[0]] + more;
      HeadTail(s);
    }
  }

  lemma {:induction false} BodyOf(s: string)
    requires ScanString(s).Some?
    ensures var (raw, rest) := ScanString(s).value; IsBody(raw) && s == raw + ("\"" + rest)
  {
    if s[0] == '"' {
      HeadTail(s);
    } else {
      var n := UnitLength(s);
      var (raw, rest) := ScanString(s[n..]).value;
      BodyOf(s[n..]);
      SplitAt(s, n);
      UnitAlone(s, n);
      UnitBefore(s[..n], raw);
      Regroup(s[..n], raw, "\"" + rest);
    }
  }

  lemma UnitAlone(s: string, n: nat)
    requires n == UnitLength(s) > 0
    ensures UnitLength(s[..n]) == n
  {}

  lemma UnitBefore(unit: string, raw: string)
    requires UnitLength(unit) == |unit| > 0 && IsBody(raw)
    ensures IsBody(unit + raw)
  {
    LenientProofs.UnitIsLocal(unit, raw);
    assert (unit + raw)[|unit|..] == raw;
  }

  /** The node prints the front of the text that the reader has read. */
  ghost predicate Front(n: Node, t: string, v: Value, rest: string, room: nat) {
    Valid(n) && Depth(n) < room && Denotes(n) == v && t == Print(n) + rest
  }

  ghost predicate ItemsFront(items: Items, s: string, vs: seq<Value>, rest: string, room: nat) {
    ItemsValid(items) && ItemsDepth(items) < room && ItemsDenote(items) == vs && s == ItemsText(items) + ("]" + rest)
  }

  ghost predicate MembersFront(members: Members, s: string, ms: seq<Entry>, rest: string, room: nat) {
    && MembersValid(members) && MembersDepth(members) < room && MembersDenote(members) == ms
    && s == MembersText(members) + ("}" + rest)
  }

  predicate IsWord(t: string) { "null" <= t || "true" <= t || "false" <= t }

  /** No white space comes first. */
  predicate Begun(t: string) { t != "" && !IsWs(t[0]) }

  lemma WordOf(t: string, room: nat) returns (n: Node)
    requires Begun(t) && IsWord(t) && room > 0
    ensures ParseValue(t, room).Some?
    ensures var (v, rest) := ParseValue(t, room).value; Front(n, t, v, rest, room)
  {
    if "null" <= t {
      n := Null;
      SplitAt(t, 4);
    } else if "true" <= t {
      n := Bool(true);
      SplitAt(t, 4);
    } else {
      n := Bool(false);
      SplitAt(t, 5);
    }
  }

  lemma TextIs(t: string, room: nat)
    requires Begun(t) && t[0] == '"' && ParseValue(t, room).Some?
    ensures var r := ScanString(t[1..]); r.Some? && ParseValue(t, room) == Some((VString(r.value.0), r.value.1))
  {}

  lemma TextFront(t: string, raw: string, rest: string, room: nat)
    requires t != "" && t[0] == '"' && t[1..] == raw + ("\"" + rest) && IsBody(raw) && room > 0
    ensures Front(Text(raw), t, VString(raw), rest, room)
  {
    HeadTail(t);
    assert t == "\"" + raw + "\"" + rest;
  }

  lemma TextOf(t: string, room: nat) returns (n: Node)
    requires Begun(t) && t[0] == '"' && ParseValue(t, room).Some? && room > 0
    ensures var (v, rest) := ParseValue(t, room).value; Front(n, t, v, rest, room)
  {
    TextIs(t, room);
    var (raw, rest) := ScanString(t[1..]).value;
    BodyOf(t[1..]);
    n := Text(raw);
    TextFront(t, raw, rest, room);
  }

  lemma NumberOf(t: string, room: nat) returns (n: Node)
    requires Begun(t) && !IsWord(t) && t[0] != '"' && t[0] != '[' && t[0] != '{'
    requires ParseValue(t, room).Some? && room > 0
    ensures var (v, rest) := ParseValue(t, room).value; Front(n, t, v, rest, room)
  {
    var k := NumberRun(t);
    n := Number(t[..k]);
    SplitAt(t, k);
  }

  /** What an opening bracket leads to. */
  lemma ArrayIs(t: string, room: nat)
    requires Begun(t) && t[0] == '[' && ParseValue(t, room).Some?
    ensures room > 1
    ensures var u := SkipWs(t[1..]);
      if u != "" && u[0] == ']' then ParseValue(t, room) == Some((VArray([]), u[1..]))
      else var r := ParseItems(t[1..], room - 1);
           r.Some? && ParseValue(t, room) == Some((VArray(r.value.0), r.value.1))
  {
    if room > 1 {
      SkippedItems(t[1..], room - 1);
    }
  }

  lemma ObjectIs(t: string, room: nat)
    requires Begun(t) && t[0] == '{' && ParseValue(t, room).Some?
    ensures room > 1
    ensures var u := SkipWs(t[1..]);
      if u != "" && u[0] == '}' then ParseValue(t, room) == Some((VObject([]), u[1..]))
      else var r := ParseMembers(t[1..], room - 1);
           r.Some? && ParseValue(t, room) == Some((VObject(r.value.0), r.value.1))
  {
    if room > 1 {
      SkippedMembers(t[1..], room - 1);
    }
  }

  lemma EmptyOf(t: string, open: char, close: char) returns (gap: string)
    requires t != "" && t[0] == open && SkipWs(t[1..]) != "" && SkipWs(t[1..])[0] == close
    ensures IsGap(gap) && t == ([open] + (gap + [close])) + SkipWs(t[1..])[1..]
  {
    gap := GapOf(t[1..]);
    HeadTail(t);
    HeadTail(SkipWs(t[1..]));
  }

  lemma ArrayFront(items: Items, t: string, vs: seq<Value>, rest: string, room: nat)
    requires room > 1 && t != "" && t[0] == '[' && ItemsFront(items, t[1..], vs, rest, room - 1)
    ensures Front(Array(items), t, VArray(vs), rest, room)
  {
    HeadTail(t);
    assert t == ("[" + (ItemsText(items) + "]")) + rest;
  }

  lemma ObjectFront(members: Members, t: string, ms: seq<Entry>, rest: string, room: nat)
    requires room > 1 && t != "" && t[0] == '{' && MembersFront(members, t[1..], ms, rest, room - 1)
    ensures Front(Object(members), t, VObject(ms), rest, room)
  {
    HeadTail(t);
    assert t == ("{" + (MembersText(members) + "}")) + rest;
  }

  lemma {:induction false} ArrayOf(t: string, room: nat) returns (n: Node)
    requires Begun(t) && t[0] == '[' && ParseValue(t, room).Some? && room > 0
    ensures var (v, rest) := ParseValue(t, room).value; Front(n, t, v, rest, room)
    decreases |t|, 0
  {
    ArrayIs(t, room);
    var u := SkipWs(t[1..]);
    if u != "" && u[0] == ']' {
      var gap := EmptyOf(t, '[', ']');
      n := NoItems(gap);
    } else {
      var items := ItemsOf(t[1..], room - 1);
      n := Array(items);
      var (vs, rest) := ParseItems(t[1..], room - 1).value;
      ArrayFront(items, t, vs, rest, room);
    }
  }

  lemma {:induction false} ObjectOf(t: string, room: nat) returns (n: Node)
    requires Begun(t) && t[0] == '{' && ParseValue(t, room).Some? && room > 0
    ensures var (v, rest) := ParseValue(t, room).value; Front(n, t, v, rest, room)
    decreases |t|, 0
  {
    ObjectIs(t, room);
    var u := SkipWs(t[1..]);
    if u != "" && u[0] == '}' {
      var gap := EmptyOf(t, '{', '}');
      n := NoMembers(gap);
    } else {
      var members := MembersOf(t[1..], room - 1);
      n := Object(members);
      var (ms, rest) := ParseMembers(t[1..], room - 1).value;
      ObjectFront(members, t, ms, rest, room);
    }
  }

  lemma {:induction false} NodeOf(t: string, room: nat) returns (n: Node)
    requires Begun(t) && ParseValue(t, room).Some? && room > 0
    ensures var (v, rest) := ParseValue(t, room).value; Front(n, t, v, rest, room)
    decreases |t|, 1
  {
    if IsWord(t) {
      n := WordOf(t, room);
    } else if t[0] == '"' {
      n := TextOf(t, room);
    } else if t[0] == '[' {
      n := ArrayOf(t, room);
    } else if t[0] == '{' {
      n := ObjectOf(t, room);
    } else {
      n := NumberOf(t, room);
    }
  }

  lemma BegunIs(s: string, room: nat)
    requires ParseValue(s, room).Some?
    ensures Begun(SkipWs(s)) && ParseValue(SkipWs(s), room) == ParseValue(s, room)
  {
    SkipTwice(s);
  }

  /** An element and the text after it. */
  lemma {:induction false} ElementOf(s: string, room: nat) returns (e: Element)
    requires ParseValue(s, room).Some? && room > 0
    ensures ElementValid(e) && Depth(e.node) < room && Denotes(e.node) == ParseValue(s, room).value.0
    ensures s == ElementText(e) + SkipWs(ParseValue(s, room).value.1)
    decreases |s|, 2
  {
    BegunIs(s, room);
    var rest := ParseValue(s, room).value.1;
    var lead := GapOf(s);
    var n := NodeOf(SkipWs(s), room);
    var trail := GapOf(rest);
    e := Element(lead, n, trail);
    ElementParts(e, SkipWs(rest));
  }

  lemma {:induction false} ItemsOf(s: string, room: nat) returns (items: Items)
    requires ParseItems(s, room).Some? && room > 0
    ensures var (vs, rest) := ParseItems(s, room).value; ItemsFront(items, s, vs, rest, room)
    decreases |s|, 3
  {
    var e := ElementOf(s, room);
    var t := SkipWs(ParseValue(s, room).value.1);
    HeadTail(t);
    if t[0] == ']' {
      items := LastItem(e);
    } else {
      var more := ItemsOf(t[1..], room);
      items := NextItem(e, more);
      ItemsParts(items, "]" + ParseItems(t[1..], room).value.1);
    }
  }

  /** What a quoted key leads to. */
  lemma KeyIs(s: string)
    requires ParseKey(s).Some?
    ensures var t := SkipWs(s);
      && t != "" && t[0] == '"' && ScanString(t[1..]).Some?
      && var (key, after) := ScanString(t[1..]).value;
         SkipWs(after) != "" && SkipWs(after)[0] == ':' && ParseKey(s) == Some((key, SkipWs(after)[1..]))
  {}

  lemma KeyParts(m: Member, rest: string)
    ensures KeyText(m) + rest == m.lead + ("\"" + (m.key + ("\"" + (m.gap + (":" + rest)))))
  {}

  lemma KeyOf(s: string) returns (m: Member)
    requires ParseKey(s).Some?
    ensures var (key, rest) := ParseKey(s).value;
      IsGap(m.lead) && IsBody(m.key) && IsGap(m.gap) && m.key == key && s == KeyText(m) + rest
  {
    KeyIs(s);
    var t := SkipWs(s);
    var lead := GapOf(s);
    BodyOf(t[1..]);
    var (key, after) := ScanString(t[1..]).value;
    var gap := GapOf(after);
    m := Member(lead, key, gap, Element("", Null, ""));
    HeadTail(t);
    HeadTail(SkipWs(after));
    KeyParts(m, ParseKey(s).value.1);
  }

  lemma {:induction false} MemberOf(s: string, room: nat) returns (m: Member)
    requires ParseKey(s).Some? && ParseValue(ParseKey(s).value.1, room).Some? && room > 0
    ensures MemberValid(m) && Depth(m.value.node) < room && m.key == ParseKey(s).value.0
    ensures var (v, after) := ParseValue(ParseKey(s).value.1, room).value;
      Denotes(m.value.node) == v && s == MemberText(m) + SkipWs(after)
    decreases |s|, 2
  {
    var k := KeyOf(s);
    var e := ElementOf(ParseKey(s).value.1, room);
    m := k.(value := e);
    assert KeyText(m) == KeyText(k);
    var (_, after) := ParseValue(ParseKey(s).value.1, room).value;
    Regroup(KeyText(m), ElementText(e), SkipWs(after));
  }

  /** What a member leads to. */
  lemma MembersAre(s: string, room: nat)
    requires ParseMembers(s, room).Some?
    ensures ParseKey(s).Some? && ParseValue(ParseKey(s).value.1, room).Some?
    ensures var (key, body) := ParseKey(s).value;
      var (v, after) := ParseValue(body, room).value;
      var t := SkipWs(after);
      && t != ""
      && (if t[0] == '}' then ParseMembers(s, room) == Some(([Entry(key, v)], t[1..]))
          else t[0] == ',' && var r := ParseMembers(t[1..], room);
               r.Some? && ParseMembers(s, room) == Some(([Entry(key, v)] + r.value.0, r.value.1)))
  {}

  lemma LastFront(m: Member, rest: string, room: nat)
    requires MemberValid(m) && Depth(m.value.node) < room
    ensures MembersFront(LastMember(m), MemberText(m) + ("}" + rest), [Entry(m.key, Denotes(m.value.node))], rest, room)
  {}

  lemma NextFront(m: Member, more: Members, u: string, ms: seq<Entry>, rest: string, room: nat)
    requires MemberValid(m) && Depth(m.value.node) < room && MembersFront(more, u, ms, rest, room)
    ensures MembersFront(NextMember(m, more), MemberText(m) + ("," + u),
                         [Entry(m.key, Denotes(m.value.node))] + ms, rest, room)
  {
    MembersParts(NextMember(m, more), "}" + rest);
    Regroup(KeyText(m), ElementText(m.value), "," + u);
  }

  lemma {:induction false} MembersOf(s: string, room: nat) returns (members: Members)
    requires ParseMembers(s, room).Some? && room > 0
    ensures var (ms, rest) := ParseMembers(s, room).value; MembersFront(members, s, ms, rest, room)
    decreases |s|, 3
  {
    MembersAre(s, room);
    var m := MemberOf(s, room);
    var t := SkipWs(ParseValue(ParseKey(s).value.1, room).value.1);
    HeadTail(t);
    if t[0] == '}' {
      members := LastMember(m);
      LastFront(m, t[1..], room);
    } else {
      var more := MembersOf(t[1..], room);
      members := NextMember(m, more);
      var (ms, rest) := ParseMembers(t[1..], room).value;
      NextFront(m, more, t[1..], ms, rest, room);
    }
  }

  // -------------------------------------------------------------------------
  // Exactness
  // -------------------------------------------------------------------------

  /** The element's text is read as what it denotes, unless it is nested too deep. */
  lemma DocumentIsRead(e: Element)
    requires ElementValid(e) && Depth(e.node) <= 127
    ensures Parse(ElementText(e)) == Some(Denotes(e.node))
  {
    ReadElement(e, "", NESTING);
    assert ElementText(e) + "" == ElementText(e);
  }

  lemma DocumentOf(s: string) returns (e: Element)
    requires Parse(s).Some?
    ensures ElementValid(e) && Depth(e.node) <= 127 && Denotes(e.node) == Parse(s).value && ElementText(e) == s
  {
    e := ElementOf(s, NESTING);
    assert ElementText(e) + "" == ElementText(e);
  }

  /** The grammar derives the text, nested no deeper than 127, and the value is what it denotes. */
  ghost predicate Derives(s: string, v: Value) {
    exists e: Element :: ElementValid(e) && Depth(e.node) <= 127 && ElementText(e) == s && Denotes(e.node) == v
  }

  /** The reader returns a value for a text exactly if the grammar derives the text with that value. */
  lemma ReaderIsExact(s: string, v: Value)
    ensures Parse(s) == Some(v) <==> Derives(s, v)
  {
    if Parse(s) == Some(v) {
      var e := DocumentOf(s);
      assert ElementValid(e) && ElementText(e) == s && Denotes(e.node) == v;
    }
    if Derives(s, v) {
      var e: Element :| ElementValid(e) && Depth(e.node) <= 127 && ElementText(e) == s && Denotes(e.node) == v;
      DocumentIsRead(e);
    }
  }

  /** A request is understood as what the grammar derives it with or, if the grammar does not derive it,
      as what it derives the repaired text with. */
  lemma RequestIsExact(req: string, v: Value)
    ensures LenientJson.ParseRequest(req) == Some(v) <==>
            Derives(req, v) || ((forall w :: !Derives(req, w)) && Derives(KeyRepair.Repair(req), v))
  {
    forall w {
      ReaderIsExact(req, w);
    }
    ReaderIsExact(KeyRepair.Repair(req), v);
    if Parse(req).Some? {
      assert Derives(req, Parse(req).value);
    }
  }
}
