/** Documents whose keys are written bare, in single or in double quotes, and what
    `parse_request` makes of them. */
module LenientJson {
  import opened Basics
  import opened JsonReader
  import opened KeyRepair

  datatype Style = Bare | Single | Double

  datatype Tree =
    | Null
    | Bool(b: bool)
    | Number(text: string)
    | Text(raw: string)
    | Array(items: seq<Tree>)
    | Object(members: seq<Member>)

  datatype Member = Member(key: string, style: Style, value: Tree)

  /** `serde_json` first; only when that fails, the repaired text. */
  function ParseRequest(req: string): Option<Value> {
    match Parse(req)
    case Some(v) => Some(v)
    case None => Parse(Repair(req))
  }

  // -------------------------------------------------------------------------
  // Printing
  // -------------------------------------------------------------------------

  function KeyText(key: string, style: Style): string {
    match style
    case Bare => key + ":"
    case Single => "'" + key + "':"
    case Double => QuotedKey(key)
  }

  /** Print a document; `gap` is the white space after each comma and colon. */
  function Print(t: Tree, gap: string): string {
    match t
    case Null => "null"
    case Bool(b) => if b then "true" else "false"
    case Number(text) => text
    case Text(raw) => Quoted(raw)
    case Array(items) => "[" + PrintItems(items, gap) + "]"
    case Object(members) => "{" + PrintMembers(members, gap) + "}"
  }

  function Quoted(raw: string): string { "\"" + raw + "\"" }

  function PrintItems(ts: seq<Tree>, gap: string): string {
    if ts == [] then ""
    else Print(ts[0], gap) + (if |ts| == 1 then "" else "," + gap + PrintItems(ts[1..], gap))
  }

  function PrintMembers(ms: seq<Member>, gap: string): string {
    if ms == [] then ""
    else KeyText(ms[0].key, ms[0].style) + gap + Print(ms[0].value, gap)
         + (if |ms| == 1 then "" else "," + gap + PrintMembers(ms[1..], gap))
  }

  /** The same document with every key in double quotes. */
  function Strict(t: Tree): Tree {
    match t
    case Array(items) => Array(StrictItems(items))
    case Object(members) => Object(StrictMembers(members))
    case _ => t
  }

  function StrictItems(ts: seq<Tree>): (r: seq<Tree>)
    ensures |r| == |ts|
  {
    if ts == [] then [] else [Strict(ts[0])] + StrictItems(ts[1..])
  }

  function StrictMembers(ms: seq<Member>): (r: seq<Member>)
    ensures |r| == |ms|
  {
    if ms == [] then []
    else [Member(ms[0].key, Double, Strict(ms[0].value))] + StrictMembers(ms[1..])
  }

  /** The value a document denotes. */
  function Meaning(t: Tree): Value {
    match t
    case Null => VNull
    case Bool(b) => VBool(b)
    case Number(text) => VNumber(text)
    case Text(raw) => VString(raw)
    case Array(items) => VArray(ItemMeanings(items))
    case Object(members) => VObject(MemberMeanings(members))
  }

  function ItemMeanings(ts: seq<Tree>): seq<Value> {
    if ts == [] then [] else [Meaning(ts[0])] + ItemMeanings(ts[1..])
  }

  function MemberMeanings(ms: seq<Member>): seq<Entry> {
    if ms == [] then [] else [Entry(ms[0].key, Meaning(ms[0].value))] + MemberMeanings(ms[1..])
  }

  // -------------------------------------------------------------------------
  // Conditions on documents
  // -------------------------------------------------------------------------

  /** Keys are non-empty and alphanumeric; scalars are JSON scalars. */
  predicate WellFormed(t: Tree) {
    match t
    case Null => true
    case Bool(_) => true
    case Number(text) => IsNumber(text)
    case Text(raw) => IsBody(raw)
    case Array(items) => forall i :: 0 <= i < |items| ==> WellFormed(items[i])
    case Object(members) => forall i :: 0 <= i < |members| ==> IsKey(members[i].key) && WellFormed(members[i].value)
  }

  predicate AllDouble(t: Tree) {
    match t
    case Array(items) => forall i :: 0 <= i < |items| ==> AllDouble(items[i])
    case Object(members) => forall i :: 0 <= i < |members| ==> members[i].style == Double && AllDouble(members[i].value)
    case _ => true
  }

  /** Arrays and objects are nested less deep than `room`. */
  predicate Shallow(t: Tree, room: nat) {
    match t
    case Array(items) => room > 1 && forall i :: 0 <= i < |items| ==> Shallow(items[i], room - 1)
    case Object(members) => room > 1 && forall i :: 0 <= i < |members| ==> Shallow(members[i].value, room - 1)
    case _ => true
  }

  predicate NothingKeyed(s: string) { forall p: nat :: p < |s| ==> !Keyed(s, p) }

  /** No rendered string holds an alphanumeric, with or without a quote, right before a colon. */
  predicate Quiet(t: Tree) {
    match t
    case Text(raw) => NothingKeyed(Quoted(raw))
    case Array(items) => forall i :: 0 <= i < |items| ==> Quiet(items[i])
    case Object(members) => forall i :: 0 <= i < |members| ==> Quiet(members[i].value)
    case _ => true
  }

  predicate IsGap(gap: string) { forall i :: 0 <= i < |gap| ==> IsWs(gap[i]) }
}
