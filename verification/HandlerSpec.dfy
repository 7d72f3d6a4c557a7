/** What one request does, as functions on values: the gate, the commands, the folder of
    database files and the per-connection cache of open handles. A file is an identity plus
    contents, so that deleting and re-creating a name gives another file. */
module HandlerSpec {
  import opened Basics
  import opened JsonValue
  import opened Tables
  import Names
  import Cidr

  /** What is committed in a database file. */
  type Content = seq<Octet>

  /** What SQLite keeps with one open handle and nowhere else: its open transaction, temporary
      tables, attached files. */
  type Scratch = seq<Octet>

  const CLEAN: Scratch := []

  type RegularTable = t: Table | t.Regular() witness Table([], [])

  datatype Outcome = Done(table: RegularTable) | Failed(code: int, message: string)

  // -------------------------------------------------------------------------
  // State
  // -------------------------------------------------------------------------

  /** The folder: which file each entry names, and the contents of every file ever created,
      which open handles keep alive after deletion. */
  datatype Store = Store(files: map<string, nat>, contents: map<nat, Content>, next: nat) {
    ghost predicate Valid() {
      && (forall id: nat :: id in contents <==> id < next)
      && (forall n :: n in files ==> files[n] < next)
      && (forall m, n :: m in files && n in files && m != n ==> files[m] != files[n])
    }
  }

  /** An open handle: the file behind it, and its scratch state. */
  datatype OpenFile = OpenFile(id: nat, scratch: Scratch)

  /** What one connection owns: its flag, and the handles cached under the names they were
      opened by. */
  datatype Session = Session(authenticated: bool, cache: map<string, OpenFile>)

  const FRESH_SESSION := Session(false, map[])

  ghost predicate CacheValid(store: Store, cache: map<string, OpenFile>) {
    forall n :: n in cache ==> cache[n].id < store.next
  }

  // -------------------------------------------------------------------------
  // Foreign behaviour
  // -------------------------------------------------------------------------

  /** What a statement does to the folder: entries it creates, if they are not there yet, and
      files it writes, its own or others (`ATTACH`, `VACUUM INTO`). Statements remove no entry. */
  datatype Change = Change(created: seq<string>, written: map<nat, Content>)

  /** Foreign behaviour, left uninterpreted: decoding and reading a request, encoding a reply,
      reaching a file, the pragmas that tune a new handle, running one statement on a handle,
      removing a file, listing order. */
  datatype Engine = Engine(
    decode: seq<Octet> -> string,
    encode: Json -> seq<Octet>,
    parse: string -> Option<Json>,
    parseError: string -> string,
    canReach: string -> bool,
    reachError: string -> (int, string),
    tune: Content -> (Content, Option<(int, string)>),
    exec: (Store, OpenFile, string) -> (Change, Scratch, Outcome),
    canRemove: string -> bool,
    listing: set<string> -> seq<string>)

  type Block = n: Cidr.Network | n.prefix <= n.address.Width() witness Cidr.Network(Cidr.V4([0, 0, 0, 0]), 0)

  /** A limit as a 32-bit number. */
  type Limit = n: nat | n < U32_LIMIT

  datatype Config = Config(auth: string, workers: nat, maxPacket: Limit, whitelist: seq<Block>)

  // -------------------------------------------------------------------------
  // Replies
  // -------------------------------------------------------------------------

  const INVALID_FORMAT := 0
  const NO_COMMAND_SPECIFIED := 1
  const UNKNOWN_COMMAND := 2
  const NO_DATABASE_SPECIFIED := 3
  const ERROR_READING_FROM_CLIENT := 4
  const SQLITE_MISUSE := 21

  function ResultReply(ok: bool): Json {
    JObj(map["result" := JStr(if ok then "ok" else "error")])
  }

  function GenericError(code: int, request: Json): Json {
    JObj(map["generic_error" := JInt(code), "request" := request])
  }

  function FormatError(message: string, request: string): Json {
    JObj(map["generic_error" := JInt(INVALID_FORMAT), "message" := JStr(message), "request" := JStr(request)])
  }

  function SqlError(error: (int, string), request: Json): Json {
    JObj(map["error_code" := JInt(error.0), "error_message" := JStr(error.1), "query" := request])
  }

  // -------------------------------------------------------------------------
  // The gate and the dispatch
  // -------------------------------------------------------------------------

  /** What is left to do once a request is understood. */
  datatype Action =
    | Answer(reply: Json)
    | DoQuery(db: string, query: string, json: Json)
    | DoList
    | DoDelete(db: string)

  /** The request carries the configured password. */
  predicate CarriesPassword(cfg: Config, eng: Engine, req: string) {
    match eng.parse(req)
    case Some(json) => cfg.auth != "" && GetStr(json, "auth") == Some(cfg.auth)
    case None => false
  }

  function QueryAction(json: Json): Action {
    match (GetStr(json, "db"), GetStr(json, "query"))
    case (None, _) => Answer(GenericError(NO_DATABASE_SPECIFIED, json))
    case (_, None) => Answer(GenericError(ERROR_READING_FROM_CLIENT, json))
    case (Some(db), Some(query)) =>
      if !Names.IsSafe(db) then Answer(GenericError(NO_DATABASE_SPECIFIED, json))
      else if IsBlankText(query) then Answer(SqlError((SQLITE_MISUSE, "empty query"), json))
      else DoQuery(db, query, json)
  }

  function DeleteAction(json: Json): Action {
    match GetStr(json, "db")
    case None => Answer(GenericError(NO_DATABASE_SPECIFIED, json))
    case Some(db) =>
      if !Names.IsSafe(db) then Answer(GenericError(NO_DATABASE_SPECIFIED, json)) else DoDelete(db)
  }

  function Command(json: Json, req: string): Action {
    match GetStr(json, "cmd")
    case None => Answer(GenericError(NO_COMMAND_SPECIFIED, JStr(req)))
    case Some(cmd) =>
      if LowerAll(cmd) == "query" then QueryAction(json)
      else if LowerAll(cmd) == "list" then DoList
      else if LowerAll(cmd) == "delete_db" then DeleteAction(json)
      else Answer(GenericError(UNKNOWN_COMMAND, JStr(req)))
  }

  /** The flag after the gate, and what the request may do. */
  function Gate(cfg: Config, eng: Engine, authenticated: bool, req: string): (bool, Action) {
    match eng.parse(req)
    case None => (authenticated, Answer(FormatError(eng.parseError(req), req)))
    case Some(json) =>
      if cfg.auth != "" && GetStr(json, "auth") == Some(cfg.auth) then (true, Answer(ResultReply(true)))
      else if cfg.auth != "" && !authenticated then (false, Answer(ResultReply(false)))
      else (authenticated, Command(json, req))
  }

  // -------------------------------------------------------------------------
  // The commands
  // -------------------------------------------------------------------------

  /** Opening creates the file on demand. */
  function Create(store: Store, entry: string): Store {
    if entry in store.files then store
    else Store(store.files[entry := store.next], store.contents[store.next := []], store.next + 1)
  }

  /** Open a new handle for `db`: the file is reached, created if need be, and tuned. A failed
      pragma leaves the file behind. */
  function OpenNew(eng: Engine, store: Store, db: string): (Store, Option<(int, string)>)
    requires store.Valid()
  {
    var entry := Names.Entry(db);
    if !eng.canReach(entry) then (store, Some(eng.reachError(entry)))
    else
      var made := Create(store, entry);
      var id := made.files[entry];
      var (tuned, failure) := eng.tune(made.contents[id]);
      (made.(contents := made.contents[id := tuned]), failure)
  }

  /** `get_connection`: the folder and the cache after it, and why it failed, if it did. */
  function GetHandle(eng: Engine, store: Store, cache: map<string, OpenFile>, db: string)
    : (Store, map<string, OpenFile>, Option<(int, string)>)
    requires store.Valid()
  {
    if db in cache then (store, cache, None)
    else
      OpenNewGrows(eng, store, db);
      var (after, failure) := OpenNew(eng, store, db);
      if failure.Some? then (after, cache, failure)
      else (after, cache[db := OpenFile(after.files[Names.Entry(db)], CLEAN)], None)
  }

  /** Entries created in order; only names directly in the folder are entries. */
  function CreateAll(store: Store, names: seq<string>): Store
    decreases |names|
  {
    if names == [] then store
    else CreateAll(if Names.IsPlain(names[0]) then Create(store, names[0]) else store, names[1..])
  }

  function Perform(store: Store, change: Change): Store {
    var grown := CreateAll(store, change.created);
    grown.(contents := map id | id in grown.contents ::
      if id in change.written then change.written[id] else grown.contents[id])
  }

  /** One statement on a handle: the folder and the scratch state after it, and the reply. */
  function Execute(eng: Engine, store: Store, file: OpenFile, query: string, json: Json): (Store, Scratch, Json) {
    var (change, scratch, outcome) := eng.exec(store, file, query);
    (Perform(store, change), scratch,
     match outcome
     case Done(table) => Payload(table)
     case Failed(code, message) => SqlError((code, message), json))
  }

  /** `remove_file` works on an existing entry named without an alias suffix. */
  predicate Removes(eng: Engine, store: Store, db: string) {
    '/' !in db && db in store.files && eng.canRemove(db)
  }

  function Remove(store: Store, db: string): Store { store.(files := store.files - {db}) }

  predicate IsSidecar(name: string) { EndsWith(name, "-wal") || EndsWith(name, "-shm") || EndsWith(name, "-journal") }

  predicate EndsWith(s: string, suffix: string) { |s| >= |suffix| && s[|s| - |suffix|..] == suffix }

  function ListReply(eng: Engine, store: Store): Json {
    JObj(map["list" := JArr(Tables.Names(Visible(eng.listing(store.files.Keys))))])
  }

  function Visible(names: seq<string>): seq<string> {
    if names == [] then []
    else (if IsSidecar(names[0]) then [] else [names[0]]) + Visible(names[1..])
  }

  function Query(eng: Engine, store: Store, cache: map<string, OpenFile>, db: string, query: string, json: Json)
    : (Store, map<string, OpenFile>, Json)
    requires store.Valid() && CacheValid(store, cache)
  {
    var (grown, handles, failure) := GetHandle(eng, store, cache, db);
    if failure.Some? then (grown, handles, SqlError(failure.value, json))
    else
      GetHandleKeepsValid(eng, store, cache, db);
      var (after, scratch, reply) := Execute(eng, grown, handles[db], query, json);
      (after, handles[db := OpenFile(handles[db].id, scratch)], reply)
  }

  /** A whole request, run without interruption. */
  function Handle(cfg: Config, eng: Engine, store: Store, session: Session, req: string): (Store, Session, Json)
    requires store.Valid() && CacheValid(store, session.cache)
  {
    var (authenticated, action) := Gate(cfg, eng, session.authenticated, req);
    match action
    case Answer(reply) => (store, Session(authenticated, session.cache), reply)
    case DoQuery(db, query, json) =>
      var (after, cache, reply) := Query(eng, store, session.cache, db, query, json);
      (after, Session(authenticated, cache), reply)
    case DoList => (store, Session(authenticated, session.cache), ListReply(eng, store))
    case DoDelete(db) =>
      if Removes(eng, store, db) then
        (Remove(store, db), Session(authenticated, session.cache - {db}), ResultReply(true))
      else (store, Session(authenticated, session.cache), ResultReply(false))
  }

  // -------------------------------------------------------------------------
  // Validity is kept
  // -------------------------------------------------------------------------

  /** Entries and files only come, new entries with new files. */
  ghost predicate Grows(store: Store, store': Store) {
    && store.Valid() && store'.Valid() && store'.next >= store.next
    && (forall n :: n in store.files ==> n in store'.files && store'.files[n] == store.files[n])
    && (forall n :: n in store'.files && n !in store.files ==> store'.files[n] >= store.next)
  }

  lemma CreateGrows(store: Store, entry: string)
    requires store.Valid()
    ensures Grows(store, Create(store, entry)) && entry in Create(store, entry).files
  {}

  lemma {:induction false} CreateAllGrows(store: Store, names: seq<string>)
    requires store.Valid()
    ensures Grows(store, CreateAll(store, names))
    decreases |names|
  {
    if names != [] {
      var made := if Names.IsPlain(names[0]) then Create(store, names[0]) else store;
      CreateGrows(store, names[0]);
      CreateAllGrows(made, names[1..]);
    }
  }

  lemma PerformGrows(store: Store, change: Change)
    requires store.Valid()
    ensures Grows(store, Perform(store, change))
  {
    CreateAllGrows(store, change.created);
  }

  lemma ExecuteGrows(eng: Engine, store: Store, file: OpenFile, query: string, json: Json)
    requires store.Valid()
    ensures Grows(store, Execute(eng, store, file, query, json).0)
  {
    PerformGrows(store, eng.exec(store, file, query).0);
  }

  lemma OpenNewGrows(eng: Engine, store: Store, db: string)
    requires store.Valid()
    ensures var (after, failure) := OpenNew(eng, store, db);
      Grows(store, after) && (failure.None? ==> Names.Entry(db) in after.files)
  {
    CreateGrows(store, Names.Entry(db));
  }

  lemma GetHandleKeepsValid(eng: Engine, store: Store, cache: map<string, OpenFile>, db: string)
    requires store.Valid() && CacheValid(store, cache)
    ensures var (after, handles, failure) := GetHandle(eng, store, cache, db);
      Grows(store, after) && CacheValid(after, handles) && (failure.None? ==> db in handles)
  {
    OpenNewGrows(eng, store, db);
  }

  lemma QueryKeepsValid(eng: Engine, store: Store, cache: map<string, OpenFile>, db: string, query: string,
                        json: Json)
    requires store.Valid() && CacheValid(store, cache)
    ensures var (after, handles, _) := Query(eng, store, cache, db, query, json);
      Grows(store, after) && CacheValid(after, handles)
  {
    GetHandleKeepsValid(eng, store, cache, db);
    var (grown, handles, failure) := GetHandle(eng, store, cache, db);
    if failure.None? {
      var (after, scratch, _) := Execute(eng, grown, handles[db], query, json);
      ExecuteGrows(eng, grown, handles[db], query, json);
      GrowsTwice(store, grown, after);
      CacheStaysValid(grown, after, handles, db, scratch);
    }
  }

  lemma CacheStaysValid(store: Store, store': Store, cache: map<string, OpenFile>, db: string, scratch: Scratch)
    requires CacheValid(store, cache) && store'.next >= store.next && db in cache
    ensures CacheValid(store', cache[db := OpenFile(cache[db].id, scratch)])
  {}

  lemma GrowsTwice(store: Store, between: Store, after: Store)
    requires Grows(store, between) && Grows(between, after)
    ensures Grows(store, after)
  {}

  lemma HandleKeepsValid(cfg: Config, eng: Engine, store: Store, session: Session, req: string)
    requires store.Valid() && CacheValid(store, session.cache)
    ensures var (after, session', _) := Handle(cfg, eng, store, session, req);
      after.Valid() && CacheValid(after, session'.cache) && after.next >= store.next
  {
    match Gate(cfg, eng, session.authenticated, req).1
    case DoQuery(db, query, json) => QueryKeepsValid(eng, store, session.cache, db, query, json);
    case _ =>
  }

  // -------------------------------------------------------------------------
  // The gate
  // -------------------------------------------------------------------------

  /** Without a password configured every understood request goes to its command; with one, a
      request is admitted exactly on an authenticated connection and when it does not itself
      carry the password. */
  lemma GateExact(cfg: Config, eng: Engine, authenticated: bool, req: string)
    requires eng.parse(req).Some?
    ensures var (flag, action) := Gate(cfg, eng, authenticated, req);
      && (flag <==> authenticated || CarriesPassword(cfg, eng, req))
      && ((cfg.auth == "" || (authenticated && !CarriesPassword(cfg, eng, req)))
          ==> action == Command(eng.parse(req).value, req))
      && (CarriesPassword(cfg, eng, req) ==> action == Answer(ResultReply(true)))
      && (cfg.auth != "" && !authenticated && !CarriesPassword(cfg, eng, req) ==> action == Answer(ResultReply(false)))
  {}

  // -------------------------------------------------------------------------
  // What a request can touch
  // -------------------------------------------------------------------------

  ghost predicate SameEntriesBut(store: Store, store': Store, entry: string) {
    forall n :: n != entry ==>
      (n in store.files <==> n in store'.files) && (n in store.files ==> store'.files[n] == store.files[n])
  }

  /** No entry but `entry` and no contents but those of `id` have changed. */
  ghost predicate TouchesOnly(store: Store, store': Store, entry: string, id: nat) {
    && SameEntriesBut(store, store', entry)
    && (forall i: nat :: i in store.contents && i != id ==> i in store'.contents && store'.contents[i] == store.contents[i])
  }

  /** The statement creates no new entry but perhaps its own, and writes, with an effect, no file
      but its handle's. */
  ghost predicate StaysOnFile(store: Store, entry: string, id: nat, change: Change) {
    && (forall n :: n in change.created && Names.IsPlain(n) ==> n in store.files || n == entry)
    && (forall i: nat :: i in change.written && i in store.contents && i != id ==> change.written[i] == store.contents[i])
  }

  lemma {:induction false} CreateAllEntries(store: Store, names: seq<string>)
    ensures var after := CreateAll(store, names);
      && (forall n :: n in after.files <==> n in store.files || (n in names && Names.IsPlain(n)))
      && (forall n :: n in store.files ==> after.files[n] == store.files[n])
    decreases |names|
  {
    if names != [] {
      var made := if Names.IsPlain(names[0]) then Create(store, names[0]) else store;
      CreateAllEntries(made, names[1..]);
      assert names == [names[0]] + names[1..];
    }
  }

  lemma {:induction false} CreateAllContents(store: Store, names: seq<string>)
    requires store.Valid()
    ensures forall i: nat :: i in store.contents ==>
      i in CreateAll(store, names).contents && CreateAll(store, names).contents[i] == store.contents[i]
    decreases |names|
  {
    if names != [] {
      var made := if Names.IsPlain(names[0]) then Create(store, names[0]) else store;
      CreateGrows(store, names[0]);
      CreateAllContents(made, names[1..]);
    }
  }

  /** A statement touches nothing but its handle's file and its own entry if and only if it stays
      on that file. */
  lemma StatementTouches(eng: Engine, store: Store, file: OpenFile, query: string, json: Json, entry: string)
    requires store.Valid()
    ensures TouchesOnly(store, Execute(eng, store, file, query, json).0, entry, file.id)
      <==> StaysOnFile(store, entry, file.id, eng.exec(store, file, query).0)
  {
    var change := eng.exec(store, file, query).0;
    CreateAllEntries(store, change.created);
    CreateAllContents(store, change.created);
    var after := Perform(store, change);
    if TouchesOnly(store, after, entry, file.id) {
      forall i: nat | i in change.written && i in store.contents && i != file.id
        ensures change.written[i] == store.contents[i]
      {
        assert after.contents[i] == store.contents[i];
      }
    }
  }

  /** Opening touches the entry of the name and the file under it, and for a cached handle nothing. */
  ghost predicate OpensOnly(before: Store, after: Store, cache: map<string, OpenFile>, db: string) {
    var entry := Names.Entry(db);
    && (db in cache ==> after == before)
    && TouchesOnly(before, after, entry, if entry in before.files then before.files[entry] else before.next)
  }

  lemma OpeningTouches(eng: Engine, store: Store, cache: map<string, OpenFile>, db: string)
    requires store.Valid()
    ensures OpensOnly(store, GetHandle(eng, store, cache, db).0, cache, db)
  {}

  /** What a request can touch. A query opens its database and runs one statement, which keeps to
      that database if and only if the statement stays on its handle's file; a deletion drops at
      most the entry it names and no contents; every other request, a refused one included,
      leaves the folder as it was. */
  lemma RequestTouches(cfg: Config, eng: Engine, store: Store, session: Session, req: string)
    requires store.Valid() && CacheValid(store, session.cache)
    ensures var after := Handle(cfg, eng, store, session, req).0;
      match Gate(cfg, eng, session.authenticated, req).1
      case DoQuery(db, query, _) =>
        var (grown, handles, failure) := GetHandle(eng, store, session.cache, db);
        && OpensOnly(store, grown, session.cache, db)
        && (failure.Some? ==> after == grown)
        && (failure.None? ==>
              && grown.Valid() && db in handles
              && (TouchesOnly(grown, after, Names.Entry(db), handles[db].id)
                  <==> StaysOnFile(grown, Names.Entry(db), handles[db].id, eng.exec(grown, handles[db], query).0)))
      case DoDelete(db) => SameEntriesBut(store, after, db) && after.contents == store.contents
      case _ => after == store
  {
    match Gate(cfg, eng, session.authenticated, req).1
    case DoQuery(db, query, json) =>
      GetHandleKeepsValid(eng, store, session.cache, db);
      OpeningTouches(eng, store, session.cache, db);
      var (grown, handles, failure) := GetHandle(eng, store, session.cache, db);
      if failure.None? {
        StatementTouches(eng, grown, handles[db], query, json, Names.Entry(db));
      }
    case _ =>
  }

  /** An engine that is plain in everything but how it runs statements. */
  function PlainEngine(parse: string -> Option<Json>, exec: (Store, OpenFile, string) -> (Change, Scratch,
                       Outcome)): Engine {
    Engine(_ => "", _ => [], parse, _ => "", _ => true, _ => (0, ""), c => (c, None), exec, _ => true, _ => [])
  }

  /** `VACUUM INTO` writes a copy of the handle's file under another entry. */
  function VacuumInto(store: Store, file: OpenFile, query: string): (Change, Scratch, Outcome) {
    (if query == "VACUUM INTO 'c'" && file.id in store.contents
     then Change(["c"], map[store.next := store.contents[file.id]]) else Change([], map[]),
     file.scratch, Done(Table([], [])))
  }

  /** So a query may touch another entry than its own: `VACUUM INTO 'c'` sent to database `a`. */
  lemma VacuumTouchesAnother(json: Json)
    ensures var store := Store(map["a" := 0], map[0 := []], 1);
      var eng := PlainEngine(_ => None, VacuumInto);
      var after := Execute(eng, store, OpenFile(0, CLEAN), "VACUUM INTO 'c'", json).0;
      store.Valid() && "c" in after.files && !TouchesOnly(store, after, "a", 0)
  {
    var store := Store(map["a" := 0], map[0 := []], 1);
    CreateAllEntries(store, ["c"]);
    assert "c" in CreateAll(store, ["c"]).files;
  }
}
