/** The requests a client can make, the texts it sends for them, and what the server's gate makes
    of those texts once its reader has read them. */
module Client {
  import opened Basics
  import opened JsonReader
  import opened LenientJson
  import opened JsonText
  import opened JsonValue
  import opened HandlerSpec
  import KeyRepair
  import LenientProofs
  import Names
  import SqlBinder

  datatype Call =
    | Login(password: string)
    | Query(db: string, sql: string, params: seq<SqlBinder.Param>)
    | List
    | Delete(db: string)

  datatype Language = Rust | Python

  /** The statement sent: the template with its parameters bound. */
  function Statement(call: Call): string
    requires call.Query?
  {
    SqlBinder.RustBind(call.sql, call.params, 0)
  }

  /** The fields of a request in the order they are printed in. */
  function FieldsOf(call: Call, language: Language): seq<(string, string)> {
    match call
    case Login(password) => [("auth", password)]
    case Query(db, _, _) =>
      if language.Rust? then [("cmd", "QUERY"), ("db", db), ("query", Statement(call))]
      else [("db", db), ("cmd", "QUERY"), ("query", Statement(call))]
    case List => [("cmd", "LIST")]
    case Delete(db) => [("cmd", "DELETE_DB"), ("db", db)]
  }

  function UnitOf(language: Language): char -> string { if language.Rust? then RustUnit else PythonUnit }

  function Members(fields: seq<(string, string)>, unit: char -> string): seq<Member> {
    if fields == [] then []
    else [Member(fields[0].0, Double, Tree.Text(Escaped(unit, fields[0].1)))] + Members(fields[1..], unit)
  }

  /** `serde_json::to_string` prints without white space, `json.dumps` with a space after each comma
      and colon. */
  function Text(call: Call, language: Language): string {
    Print(Object(Members(FieldsOf(call, language), UnitOf(language))), if language.Rust? then "" else " ")
  }

  /** The request as the client means it. */
  function Meant(call: Call): Json {
    match call
    case Login(password) => JObj(map["auth" := JStr(password)])
    case Query(db, _, _) => JObj(map["cmd" := JStr("QUERY"), "db" := JStr(db), "query" := JStr(Statement(call))])
    case List => JObj(map["cmd" := JStr("LIST")])
    case Delete(db) => JObj(map["cmd" := JStr("DELETE_DB"), "db" := JStr(db)])
  }

  /** What the server makes of a text, with numbers as `number` takes them. */
  function Understood(req: string, number: string -> Json): Option<Json> {
    match ParseRequest(req)
    case Some(v) => Some(InMemory(v, number))
    case None => None
  }

  /** The engine reads requests as `parse_request` does. */
  ghost predicate Reads(eng: Engine, number: string -> Json) {
    forall req :: eng.parse(req) == Understood(req, number)
  }

  // -------------------------------------------------------------------------
  // Reading
  // -------------------------------------------------------------------------

  /** The object with these fields, the last of each key. */
  function Strings(fields: seq<(string, string)>): map<string, Json> {
    if fields == [] then map[]
    else
      var rest := Strings(fields[1..]);
      if fields[0].0 in rest then rest else rest[fields[0].0 := JStr(fields[0].1)]
  }

  predicate KeysAreKeys(fields: seq<(string, string)>) { forall f :: f in fields ==> KeyRepair.IsKey(f.0) }

  lemma {:induction false} KeyResolves(key: string)
    requires forall i :: 0 <= i < |key| ==> IsAlnum(key[i])
    ensures Resolve(key) == key
  {
    if key != "" {
      KeyResolves(key[1..]);
      HeadTail(key);
    }
  }

  lemma UnitReads(language: Language, s: string)
    ensures IsBody(Escaped(UnitOf(language), s)) && Resolve(Escaped(UnitOf(language), s)) == s
  {
    ClientStringsAreRead(s);
  }

  lemma KeysOfRest(fields: seq<(string, string)>)
    requires KeysAreKeys(fields) && fields != []
    ensures KeyRepair.IsKey(fields[0].0) && KeysAreKeys(fields[1..])
  {
    assert forall f :: f in fields[1..] ==> f in fields;
  }

  lemma {:induction false} MembersAreWell(fields: seq<(string, string)>, language: Language, room: nat)
    requires KeysAreKeys(fields)
    ensures var ms := Members(fields, UnitOf(language));
      LenientProofs.MembersWell(ms) && LenientProofs.MembersDouble(ms) && LenientProofs.MembersShallow(ms, room)
  {
    if fields != [] {
      var ms := Members(fields, UnitOf(language));
      KeysOfRest(fields);
      MembersAreWell(fields[1..], language, room);
      UnitReads(language, fields[0].1);
      assert ms[1..] == Members(fields[1..], UnitOf(language));
      LenientProofs.MembersFirst(ms);
      LenientProofs.ShallowFirstMember(ms, room);
    }
  }

  lemma EntryFirst(key: string, raw: string, rest: seq<Entry>, number: string -> Json)
    ensures Fields([Entry(key, VString(raw))] + rest, number)
      == if Resolve(key) in Fields(rest, number) then Fields(rest, number)
         else Fields(rest, number)[Resolve(key) := JStr(Resolve(raw))]
  {
    assert ([Entry(key, VString(raw))] + rest)[1..] == rest;
  }

  lemma MemberFirst(m: Member, ms: seq<Member>)
    ensures MemberMeanings([m] + ms) == [Entry(m.key, Meaning(m.value))] + MemberMeanings(ms)
  {
    assert ([m] + ms)[1..] == ms;
  }

  lemma {:induction false} MembersAreRead(fields: seq<(string, string)>, language: Language, number: string -> Json)
    requires KeysAreKeys(fields)
    ensures Fields(MemberMeanings(Members(fields, UnitOf(language))), number) == Strings(fields)
  {
    if fields != [] {
      var (key, text) := fields[0];
      KeysOfRest(fields);
      MembersAreRead(fields[1..], language, number);
      var raw, ms := Escaped(UnitOf(language), text), Members(fields[1..], UnitOf(language));
      UnitReads(language, text);
      KeyResolves(key);
      MemberFirst(Member(key, Double, Tree.Text(raw)), ms);
      EntryFirst(key, raw, MemberMeanings(ms), number);
      assert Members(fields, UnitOf(language)) == [Member(key, Double, Tree.Text(raw))] + ms;
    }
  }

  lemma ObjectIsRead(ms: seq<Member>, gap: string, number: string -> Json)
    requires LenientProofs.MembersWell(ms) && LenientProofs.MembersDouble(ms) && IsGap(gap)
    requires LenientProofs.MembersShallow(ms, NESTING - 1)
    ensures Understood(Print(Object(ms), gap), number) == Some(JObj(Fields(MemberMeanings(ms), number)))
  {
    LenientProofs.StrictObject(ms, gap);
  }

  lemma DocumentIsRead(fields: seq<(string, string)>, language: Language, gap: string, number: string -> Json)
    requires KeysAreKeys(fields) && IsGap(gap)
    ensures Understood(Print(Object(Members(fields, UnitOf(language))), gap), number) == Some(JObj(Strings(fields)))
  {
    MembersAreWell(fields, language, NESTING - 1);
    MembersAreRead(fields, language, number);
    ObjectIsRead(Members(fields, UnitOf(language)), gap, number);
  }

  lemma KeysOfCalls()
    ensures KeyRepair.IsKey("auth") && KeyRepair.IsKey("cmd") && KeyRepair.IsKey("db") && KeyRepair.IsKey("query")
  {}

  lemma OneField(k: string, v: string)
    ensures Strings([(k, v)]) == map[k := JStr(v)]
  {
    assert [(k, v)][1..] == [];
  }

  lemma FieldFirst(k: string, v: string, rest: seq<(string, string)>)
    ensures Strings([(k, v)] + rest) == if k in Strings(rest) then Strings(rest) else Strings(rest)[k := JStr(v)]
  {
    assert ([(k, v)] + rest)[1..] == rest;
  }

  lemma TwoFields(k: string, v: string, k': string, v': string)
    requires k != k'
    ensures Strings([(k, v), (k', v')]) == map[k := JStr(v), k' := JStr(v')]
  {
    assert [(k, v), (k', v')] == [(k, v)] + [(k', v')];
    FieldFirst(k, v, [(k', v')]);
    OneField(k', v');
  }

  lemma ThreeFields(k: string, v: string, k': string, v': string, k'': string, v'': string)
    requires k != k' && k != k'' && k' != k''
    ensures Strings([(k, v), (k', v'), (k'', v'')]) == map[k := JStr(v), k' := JStr(v'), k'' := JStr(v'')]
  {
    assert [(k, v), (k', v'), (k'', v'')] == [(k, v)] + [(k', v'), (k'', v'')];
    FieldFirst(k, v, [(k', v'), (k'', v'')]);
    TwoFields(k', v', k'', v'');
  }

  lemma KeysDiffer()
    ensures "cmd" != "db" && "cmd" != "query" && "db" != "query"
  {
    assert "cmd"[0] == 'c' && "db"[0] == 'd' && "query"[0] == 'q';
  }

  lemma FieldsAreKeyed(call: Call, language: Language)
    ensures KeysAreKeys(FieldsOf(call, language))
  {
    KeysOfCalls();
  }

  lemma QueryFields(db: string, statement: string)
    ensures Strings([("cmd", "QUERY"), ("db", db), ("query", statement)])
      == Strings([("db", db), ("cmd", "QUERY"), ("query", statement)])
      == map["cmd" := JStr("QUERY"), "db" := JStr(db), "query" := JStr(statement)]
  {
    KeysDiffer();
    ThreeFields("cmd", "QUERY", "db", db, "query", statement);
    ThreeFields("db", db, "cmd", "QUERY", "query", statement);
  }

  lemma FieldsAreMeant(call: Call, language: Language)
    ensures JObj(Strings(FieldsOf(call, language))) == Meant(call)
  {
    match call
    case Login(password) => OneField("auth", password);
    case Query(db, _, _) => QueryFields(db, Statement(call));
    case List => OneField("cmd", "LIST");
    case Delete(db) =>
      KeysDiffer();
      TwoFields("cmd", "DELETE_DB", "db", db);
  }

  /** The server understands what the client means, whatever the names, statements and passwords. */
  lemma CallIsUnderstood(call: Call, language: Language, number: string -> Json)
    ensures Understood(Text(call, language), number) == Some(Meant(call))
  {
    FieldsAreKeyed(call, language);
    FieldsAreMeant(call, language);
    DocumentIsRead(FieldsOf(call, language), language, if language.Rust? then "" else " ", number);
  }

  // -------------------------------------------------------------------------
  // The gate
  // -------------------------------------------------------------------------

  /** What a call asks for, once past the gate. */
  function Asked(call: Call, req: string): Action {
    match call
    case Login(_) => Answer(GenericError(NO_COMMAND_SPECIFIED, JStr(req)))
    case Query(db, _, _) =>
      if !Names.IsSafe(db) then Answer(GenericError(NO_DATABASE_SPECIFIED, Meant(call)))
      else if IsBlankText(Statement(call)) then Answer(SqlError((SQLITE_MISUSE, "empty query"), Meant(call)))
      else DoQuery(db, Statement(call), Meant(call))
    case List => DoList
    case Delete(db) =>
      if !Names.IsSafe(db) then Answer(GenericError(NO_DATABASE_SPECIFIED, Meant(call))) else DoDelete(db)
  }

  lemma Commands()
    ensures LowerAll("QUERY") == "query" && LowerAll("LIST") == "list" && LowerAll("DELETE_DB") == "delete_db"
    ensures "query" != "list" && "query" != "delete_db" && "list" != "delete_db"
  {
    assert "query"[0] == 'q' && "list"[0] == 'l' && "delete_db"[0] == 'd';
    LowersTo("QUERY", "query");
    LowersTo("LIST", "list");
    LowersTo("DELETE_DB", "delete_db");
  }

  lemma MeantStrings(call: Call)
    ensures GetStr(Meant(call), "cmd")
      == match call
         case Login(_) => None
         case Query(_, _, _) => Some("QUERY")
         case List => Some("LIST")
         case Delete(_) => Some("DELETE_DB")
    ensures call.Query? ==>
      GetStr(Meant(call), "db") == Some(call.db) && GetStr(Meant(call), "query") == Some(Statement(call))
    ensures call.Delete? ==> GetStr(Meant(call), "db") == Some(call.db)
  {
    KeysDiffer();
    assert "cmd"[0] != "auth"[0];
  }

  lemma MeantCommand(call: Call, req: string)
    ensures Command(Meant(call), req) == Asked(call, req)
  {
    Commands();
    MeantStrings(call);
  }

  lemma MeantPassword(call: Call)
    ensures GetStr(Meant(call), "auth") == if call.Login? then Some(call.password) else None
  {
    assert "auth"[0] != "cmd"[0] && "auth"[0] != "db"[0] && "auth"[0] != "query"[0];
  }

  /** The call is a login with the right password. */
  predicate Unlocks(cfg: Config, call: Call) { cfg.auth != "" && call == Login(cfg.auth) }

  /** A call does what it asks for, if the connection has logged in or no password is set; a login
      succeeds exactly with the right password. */
  lemma CallIsGated(cfg: Config, eng: Engine, number: string -> Json, authenticated: bool, call: Call,
                    language: Language)
    requires Reads(eng, number)
    ensures var req := Text(call, language);
      && (CarriesPassword(cfg, eng, req) <==> Unlocks(cfg, call))
      && Gate(cfg, eng, authenticated, req)
         == if Unlocks(cfg, call) then (true, Answer(ResultReply(true)))
            else if cfg.auth != "" && !authenticated then (false, Answer(ResultReply(false)))
            else (authenticated, Asked(call, req))
  {
    var req := Text(call, language);
    CallIsUnderstood(call, language, number);
    assert eng.parse(req) == Some(Meant(call));
    MeantPassword(call);
    MeantCommand(call, req);
  }
}
