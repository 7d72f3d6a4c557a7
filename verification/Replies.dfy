/** What a client makes of the replies to its calls, and what its calls did to the folder. */
module Replies {
  import opened Basics
  import opened JsonValue
  import opened HandlerSpec
  import opened Client
  import Names
  import Tables

  // -------------------------------------------------------------------------
  // The client's readings
  // -------------------------------------------------------------------------

  /** `authenticate` and `delete_db` take this for success. */
  predicate Succeeds(reply: Json) { GetStr(reply, "result") == Some("ok") }

  /** `list`. */
  function ListOf(reply: Json): seq<string> { Tables.Strings(Tables.GetArray(reply, "list")) }

  /** `server_error`, with `print` the printer of JSON values. */
  function ServerError(reply: Json, print_: Json -> string): Option<string> {
    match GetStr(reply, "error_message")
    case Some(message) => Some(message)
    case None =>
      if Get(reply, "error_code").Some? || Get(reply, "generic_error").Some? then Some(print_(reply)) else None
  }

  /** The reply holds this code, this message and the request, and nothing else. */
  predicate IsSqlError(reply: Json, code: int, message: string, request: Json) {
    && reply.JObj? && reply.fields.Keys == {"error_code", "error_message", "query"}
    && Get(reply, "error_code") == Some(JInt(code))
    && Get(reply, "error_message") == Some(JStr(message))
    && Get(reply, "query") == Some(request)
  }

  /** The reply holds this code and the request, and nothing else. */
  predicate IsRefusal(reply: Json, code: int, request: Json) {
    && reply.JObj? && reply.fields.Keys == {"generic_error", "request"}
    && Get(reply, "generic_error") == Some(JInt(code)) && Get(reply, "request") == Some(request)
  }

  /** The reply is the result set, to every reader of the client. */
  predicate IsTable(reply: Json, table: RegularTable) {
    && Tables.Columns(reply) == table.columns && |Tables.Rows(reply)| == |table.rows|
    && forall i, j :: 0 <= i < |table.rows| && 0 <= j < |table.columns| ==>
         Tables.ReadAs(Tables.Rows(reply)[i], table.columns[j],
                       table.rows[i][Tables.LastIndex(table.columns, table.columns[j])])
  }

  lemma SqlErrorFields(error: (int, string), request: Json)
    ensures IsSqlError(SqlError(error, request), error.0, error.1, request)
  {
    assert "error_code"[6] != "error_message"[6] && "query"[0] != "error_code"[0] && "query"[0] != "error_message"[0];
  }

  /** An SQL error is reported to the caller with its message. */
  lemma SqlErrorIsSeen(error: (int, string), request: Json, print_: Json -> string)
    ensures IsSqlError(SqlError(error, request), error.0, error.1, request)
    ensures ServerError(SqlError(error, request), print_) == Some(error.1)
  {
    SqlErrorFields(error, request);
  }

  lemma RefusalFields(code: int, request: Json)
    ensures IsRefusal(GenericError(code, request), code, request)
    ensures Get(GenericError(code, request), "error_message") == None
    ensures Get(GenericError(code, request), "result") == None
  {
    assert "generic_error"[0] != "request"[0] && "error_message"[0] != "generic_error"[0];
    assert "error_message"[0] != "request"[0] && "result"[0] != "generic_error"[0] && "result"[2] != "request"[2];
  }

  /** A refusal is reported in full. */
  lemma RefusalIsSeen(code: int, request: Json, print_: Json -> string)
    ensures IsRefusal(GenericError(code, request), code, request)
    ensures ServerError(GenericError(code, request), print_) == Some(print_(GenericError(code, request)))
  {
    RefusalFields(code, request);
  }

  lemma NoErrorFields(columns: Json, data: Json)
    ensures var payload := JObj(map["columns" := columns, "data" := data]);
      && Get(payload, "error_message") == None && Get(payload, "error_code") == None
      && Get(payload, "generic_error") == None
  {
    assert "columns"[0] != "error_message"[0] && "columns"[0] != "error_code"[0] && "columns"[0] != "generic_error"[0];
    assert "data"[0] != "error_message"[0] && "data"[0] != "error_code"[0] && "data"[0] != "generic_error"[0];
  }

  lemma TableIsTold(table: RegularTable)
    ensures IsTable(Tables.Payload(table), table)
  {
    Tables.TableIsRead(table);
  }

  /** A result set is read as what it is, and is no error. */
  lemma TableIsSeen(table: RegularTable, print_: Json -> string)
    ensures IsTable(Tables.Payload(table), table) && ServerError(Tables.Payload(table), print_) == None
  {
    TableIsTold(table);
    NoErrorFields(JArr(Tables.Names(table.columns)), JArr(Tables.RowObjects(table)));
  }

  // -------------------------------------------------------------------------
  // Logging in
  // -------------------------------------------------------------------------

  lemma ResultIsRead(ok: bool)
    ensures GetStr(ResultReply(ok), "result") == Some(if ok then "ok" else "error")
    ensures Succeeds(ResultReply(ok)) <==> ok
  {
    assert "ok"[0] != "error"[0];
  }

  lemma RefusalFails(code: int, request: Json)
    ensures !Succeeds(GenericError(code, request))
  {
    RefusalFields(code, request);
  }

  /** A login succeeds, to the client, exactly with the configured password; then and only then does it
      authenticate the connection, and it does nothing else. */
  lemma LoginIsAnswered(cfg: Config, eng: Engine, number: string -> Json, store: Store, session: Session,
                        password: string, language: Language)
    requires Reads(eng, number) && store.Valid() && CacheValid(store, session.cache)
    ensures var (after, session', reply) := Handle(cfg, eng, store, session, Text(Login(password), language));
      && (Succeeds(reply) <==> cfg.auth != "" && password == cfg.auth)
      && (session'.authenticated <==> session.authenticated || (cfg.auth != "" && password == cfg.auth))
      && after == store && session'.cache == session.cache
  {
    CallIsGated(cfg, eng, number, session.authenticated, Login(password), language);
    ResultIsRead(true);
    ResultIsRead(false);
    RefusalFails(NO_COMMAND_SPECIFIED, JStr(Text(Login(password), language)));
  }

  /** Nothing else is done, or answered otherwise than by an error, before the login. */
  lemma LockedOut(cfg: Config, eng: Engine, number: string -> Json, store: Store, session: Session,
                  call: Call, language: Language)
    requires Reads(eng, number) && store.Valid() && CacheValid(store, session.cache)
    requires cfg.auth != "" && !session.authenticated && !(call.Login? && call.password == cfg.auth)
    ensures var (after, session', reply) := Handle(cfg, eng, store, session, Text(call, language));
      after == store && session' == session && GetStr(reply, "result") == Some("error")
  {
    CallIsGated(cfg, eng, number, session.authenticated, call, language);
    ResultIsRead(false);
  }

  // -------------------------------------------------------------------------
  // Deleting and listing
  // -------------------------------------------------------------------------

  predicate Permitted(cfg: Config, session: Session) { cfg.auth == "" || session.authenticated }

  /** What a deletion did and answered. */
  predicate DeletionDone(store: Store, session: Session, db: string, after: Store, session': Session, reply: Json) {
    && (Succeeds(reply) <==> db in store.files && db !in after.files)
    && (Succeeds(reply) ==> after == store.(files := store.files - {db}) && session'.cache == session.cache - {db})
    && (!Succeeds(reply) ==> after == store && session'.cache == session.cache)
    && session'.authenticated == session.authenticated
  }

  lemma DeletionHandled(cfg: Config, eng: Engine, store: Store, session: Session, req: string, db: string)
    requires store.Valid() && CacheValid(store, session.cache)
    requires Gate(cfg, eng, session.authenticated, req) == (session.authenticated, DoDelete(db)) && Names.IsSafe(db)
    ensures var (after, session', reply) := Handle(cfg, eng, store, session, req);
      && DeletionDone(store, session, db, after, session', reply)
      && (Succeeds(reply) <==> Names.IsPlain(db) && db in store.files && eng.canRemove(db))
  {
    ResultIsRead(true);
    ResultIsRead(false);
    if '/' !in db {
      Names.PlainNames(db);
    }
  }

  /** `delete_db` returns true exactly if the name was an entry before and is none after, and then
      nothing else has changed in the folder; otherwise nothing at all. It does so for every plain
      name of an entry that the system lets be removed. */
  lemma DeleteIsAnswered(cfg: Config, eng: Engine, number: string -> Json, store: Store, session: Session,
                         db: string, language: Language)
    requires Reads(eng, number) && store.Valid() && CacheValid(store, session.cache)
    ensures var (after, session', reply) := Handle(cfg, eng, store, session, Text(Delete(db), language));
      && DeletionDone(store, session, db, after, session', reply)
      && (Succeeds(reply) <==>
            Permitted(cfg, session) && Names.IsPlain(db) && db in store.files && eng.canRemove(db))
  {
    CallIsGated(cfg, eng, number, session.authenticated, Delete(db), language);
    ResultIsRead(false);
    RefusalFails(NO_DATABASE_SPECIFIED, Meant(Delete(db)));
    if Permitted(cfg, session) && Names.IsSafe(db) {
      DeletionHandled(cfg, eng, store, session, Text(Delete(db), language), db);
    } else if '/' !in db {
      Names.PlainNames(db);
    }
  }

  ghost predicate Ends(name: string, suffix: string) { exists front: string :: name == front + suffix }

  /** The name of a file that SQLite keeps beside a database. */
  ghost predicate IsBeside(name: string) { Ends(name, "-wal") || Ends(name, "-shm") || Ends(name, "-journal") }

  lemma EndsWithMeans(name: string, suffix: string)
    ensures EndsWith(name, suffix) <==> Ends(name, suffix)
  {
    if EndsWith(name, suffix) {
      assert name == name[..|name| - |suffix|] + suffix;
    }
    if Ends(name, suffix) {
      var front: string :| name == front + suffix;
      assert name[|front|..] == suffix;
    }
  }

  lemma SidecarIsBeside(name: string)
    ensures IsSidecar(name) <==> IsBeside(name)
  {
    EndsWithMeans(name, "-wal");
    EndsWithMeans(name, "-shm");
    EndsWithMeans(name, "-journal");
  }

  /** `some` is what is at the places `at` of `all`, in order. */
  predicate PicksOut(all: seq<string>, at: seq<nat>, some: seq<string>) {
    && |at| == |some|
    && (forall i :: 0 <= i < |at| ==> at[i] < |all| && some[i] == all[at[i]])
    && (forall i, j :: 0 <= i < j < |at| ==> at[i] < at[j])
  }

  function Moved(at: seq<nat>): (r: seq<nat>)
    ensures |r| == |at| && forall i :: 0 <= i < |at| ==> r[i] == at[i] + 1
  {
    seq(|at|, i requires 0 <= i < |at| => at[i] + 1)
  }

  lemma MovedHas(at: seq<nat>, i: nat)
    ensures i in Moved(at) <==> i > 0 && i - 1 in at
  {
    if i > 0 && i - 1 in at {
      var k :| 0 <= k < |at| && at[k] == i - 1;
      assert Moved(at)[k] == i;
    }
  }

  lemma PicksMoved(all: seq<string>, at: seq<nat>, some: seq<string>)
    requires all != [] && PicksOut(all[1..], at, some)
    ensures PicksOut(all, Moved(at), some)
  {}

  lemma PicksHead(all: seq<string>, at: seq<nat>, some: seq<string>)
    requires all != [] && PicksOut(all, at, some) && forall i :: 0 <= i < |at| ==> at[i] > 0
    ensures PicksOut(all, [0] + at, [all[0]] + some)
  {}

  /** The places of the names that are no sidecar files. */
  ghost function Places(names: seq<string>): seq<nat> {
    if names == [] then []
    else (if IsBeside(names[0]) then [] else [0]) + Moved(Places(names[1..]))
  }

  lemma {:induction false} VisibleIsRest(names: seq<string>)
    ensures PicksOut(names, Places(names), Visible(names))
    decreases |names|
  {
    if names != [] {
      VisibleIsRest(names[1..]);
      SidecarIsBeside(names[0]);
      PicksMoved(names, Places(names[1..]), Visible(names[1..]));
      PicksHead(names, Moved(Places(names[1..])), Visible(names[1..]));
      assert [] + Moved(Places(names[1..])) == Moved(Places(names[1..]));
      assert [] + Visible(names[1..]) == Visible(names[1..]);
    }
  }

  lemma {:induction false} PlacesAre(names: seq<string>, i: nat)
    requires i < |names|
    ensures i in Places(names) <==> !IsBeside(names[i])
    decreases i
  {
    var later := Places(names[1..]);
    MovedHas(later, i);
    assert forall a: seq<nat>, b: seq<nat> :: i in a + b <==> i in a || i in b;
    if i > 0 {
      PlacesAre(names[1..], i - 1);
    }
  }

  /** The places picked out are those of the names that are no sidecar files. */
  lemma PlacesAreAll(names: seq<string>)
    ensures forall i :: 0 <= i < |names| ==> (i in Places(names) <==> !IsBeside(names[i]))
  {
    forall i | 0 <= i < |names|
      ensures i in Places(names) <==> !IsBeside(names[i])
    {
      PlacesAre(names, i);
    }
  }

  /** `list` returns exactly the names that the folder lists and that are no sidecar files, in the
      order they are listed in; nothing changes. */
  lemma ListIsAnswered(cfg: Config, eng: Engine, number: string -> Json, store: Store, session: Session,
                       language: Language)
    requires Reads(eng, number) && store.Valid() && CacheValid(store, session.cache) && Permitted(cfg, session)
    ensures var (after, session', reply) := Handle(cfg, eng, store, session, Text(List, language));
      after == store && session' == session && ListsFolder(eng, store, reply)
    ensures var names := eng.listing(store.files.Keys);
      forall i :: 0 <= i < |names| ==> (i in Places(names) <==> !IsBeside(names[i]))
  {
    CallIsGated(cfg, eng, number, session.authenticated, List, language);
    var names := eng.listing(store.files.Keys);
    VisibleIsRest(names);
    PlacesAreAll(names);
    ListIsRead(Visible(names));
  }

  lemma ListIsRead(names: seq<string>)
    ensures ListOf(JObj(map["list" := JArr(Tables.Names(names))])) == names
  {
    Tables.StringsOfNames(names);
  }

  // -------------------------------------------------------------------------
  // Opening
  // -------------------------------------------------------------------------

  /** A handle for a name: the cached one; or an error and no change if the file cannot be reached; or
      the file of its entry, an empty one under a new identity if there was none, with what the
      pragmas make of it, cached with a clean scratch state unless they fail. */
  lemma HandleMeans(eng: Engine, store: Store, cache: map<string, OpenFile>, db: string)
    requires store.Valid()
    ensures var (grown, handles, failure) := GetHandle(eng, store, cache, db);
      var entry := Names.Entry(db);
      if db in cache then grown == store && handles == cache && failure == None
      else if !eng.canReach(entry) then grown == store && handles == cache && failure == Some(eng.reachError(entry))
      else
        var id := if entry in store.files then store.files[entry] else store.next;
        var (tuned, problem) := eng.tune(if entry in store.files then store.contents[id] else []);
        && failure == problem && handles == (if problem.None? then cache[db := OpenFile(id, CLEAN)] else cache)
        && entry in grown.files && grown.files[entry] == id && id in grown.contents && grown.contents[id] == tuned
        && (forall n :: n != entry ==>
              (n in grown.files <==> n in store.files) && (n in store.files ==> grown.files[n] == store.files[n]))
        && (forall i: nat :: i != id ==>
              (i in grown.contents <==> i in store.contents)
              && (i in store.contents ==> grown.contents[i] == store.contents[i]))
  {
    OpeningTouches(eng, store, cache, db);
  }

  // -------------------------------------------------------------------------
  // Queries
  // -------------------------------------------------------------------------

  /** The folder after a statement: what it created and wrote is there, and all else as before. */
  ghost predicate Written(before: Store, after: Store, change: Change) {
    && after.Valid()
    && (forall n :: n in after.files <==> n in before.files || (n in change.created && Names.IsPlain(n)))
    && (forall n :: n in before.files ==> after.files[n] == before.files[n])
    && (forall i: nat :: i in before.contents ==> i in after.contents)
    && (forall i: nat :: i in after.contents ==>
          after.contents[i] == if i in change.written then change.written[i]
                               else if i in before.contents then before.contents[i] else [])
  }

  lemma {:induction false} CreatedEmpty(store: Store, names: seq<string>)
    requires store.Valid()
    ensures var after := CreateAll(store, names);
      forall i: nat :: i in after.contents && i !in store.contents ==> after.contents[i] == []
    decreases |names|
  {
    if names != [] {
      var made := if Names.IsPlain(names[0]) then Create(store, names[0]) else store;
      CreateGrows(store, names[0]);
      CreatedEmpty(made, names[1..]);
      CreateAllContents(made, names[1..]);
    }
  }

  lemma PerformWrites(store: Store, change: Change)
    requires store.Valid()
    ensures Written(store, Perform(store, change), change)
  {
    PerformGrows(store, change);
    CreateAllEntries(store, change.created);
    CreateAllContents(store, change.created);
    CreatedEmpty(store, change.created);
  }

  /** The reply tells the outcome: the result set to every reader, or the code, the message and the
      request. */
  predicate Tells(reply: Json, outcome: Outcome, request: Json) {
    match outcome
    case Done(table) => IsTable(reply, table)
    case Failed(code, message) => IsSqlError(reply, code, message, request)
  }

  /** What a query did and answered: the statement ran on the handle of its name, its effects are in
      the folder and in the handle's scratch state, and its outcome is in the reply. */
  ghost predicate QueryDone(eng: Engine, store: Store, session: Session, call: Call,
                            after: Store, session': Session, reply: Json)
    requires store.Valid() && call.Query?
  {
    var (grown, handles, failure) := GetHandle(eng, store, session.cache, call.db);
    match failure
    case Some(error) =>
      after == grown && session' == session && IsSqlError(reply, error.0, error.1, Meant(call))
    case None =>
      && call.db in handles
      && var file := handles[call.db];
      var (change, scratch, outcome) := eng.exec(grown, file, Statement(call));
      && Written(grown, after, change)
      && session' == session.(cache := handles[call.db := OpenFile(file.id, scratch)])
      && Tells(reply, outcome, Meant(call))
  }

  lemma ExecuteTells(eng: Engine, store: Store, file: OpenFile, query: string, json: Json)
    requires store.Valid()
    ensures var (change, scratch, outcome) := eng.exec(store, file, query);
      var (after, left, reply) := Execute(eng, store, file, query, json);
      Written(store, after, change) && left == scratch && Tells(reply, outcome, json)
  {
    var (change, _, outcome) := eng.exec(store, file, query);
    PerformWrites(store, change);
    match outcome
    case Done(table) => TableIsSeen(table, _ => "");
    case Failed(code, message) => SqlErrorIsSeen((code, message), json, _ => "");
  }

  /** A permitted query on an accepted name, with a statement that is not blank, is done. */
  lemma QueryIsAnswered(cfg: Config, eng: Engine, number: string -> Json, store: Store, session: Session,
                        call: Call, language: Language)
    requires Reads(eng, number) && store.Valid() && CacheValid(store, session.cache) && Permitted(cfg, session)
    requires call.Query? && Names.IsSafe(call.db) && !IsBlankText(Statement(call))
    ensures var (after, session', reply) := Handle(cfg, eng, store, session, Text(call, language));
      QueryDone(eng, store, session, call, after, session', reply)
  {
    CallIsGated(cfg, eng, number, session.authenticated, call, language);
    GetHandleKeepsValid(eng, store, session.cache, call.db);
    var (grown, handles, failure) := GetHandle(eng, store, session.cache, call.db);
    match failure
    case Some(error) => SqlErrorIsSeen(error, Meant(call), _ => "");
    case None => ExecuteTells(eng, grown, handles[call.db], Statement(call), Meant(call));
  }

  // -------------------------------------------------------------------------
  // Refusals
  // -------------------------------------------------------------------------

  /** A query on a name that is not accepted is refused with code 3, a blank statement fails with code
      21, and neither changes anything. */
  lemma BadQueryIsRefused(cfg: Config, eng: Engine, number: string -> Json, store: Store, session: Session,
                          call: Call, language: Language)
    requires Reads(eng, number) && store.Valid() && CacheValid(store, session.cache) && Permitted(cfg, session)
    requires call.Query? && (!Names.IsSafe(call.db) || IsBlankText(Statement(call)))
    ensures var (after, session', reply) := Handle(cfg, eng, store, session, Text(call, language));
      && after == store && session' == session
      && if !Names.IsSafe(call.db) then IsRefusal(reply, 3, Meant(call))
         else IsSqlError(reply, 21, "empty query", Meant(call))
  {
    CallIsGated(cfg, eng, number, session.authenticated, call, language);
    RefusalIsSeen(3, Meant(call), _ => "");
    SqlErrorIsSeen((21, "empty query"), Meant(call), _ => "");
  }

  // -------------------------------------------------------------------------
  // Every call
  // -------------------------------------------------------------------------

  /** Nothing has been done, and the reply is an error. */
  predicate Rejected(store: Store, session: Session, after: Store, session': Session, reply: Json) {
    after == store && session' == session && GetStr(reply, "result") == Some("error")
  }

  /** The reply lists what the folder lists, without the sidecar files. */
  ghost predicate ListsFolder(eng: Engine, store: Store, reply: Json) {
    PicksOut(eng.listing(store.files.Keys), Places(eng.listing(store.files.Keys)), ListOf(reply))
  }

  /** What a call did and answered, whoever makes it in whatever state. */
  ghost predicate CallDone(cfg: Config, eng: Engine, store: Store, session: Session, call: Call,
                           after: Store, session': Session, reply: Json)
    requires store.Valid()
  {
    match call
    case Login(password) =>
      && (Succeeds(reply) <==> cfg.auth != "" && password == cfg.auth)
      && (session'.authenticated <==> session.authenticated || (cfg.auth != "" && password == cfg.auth))
      && after == store && session'.cache == session.cache
    case Delete(db) =>
      && DeletionDone(store, session, db, after, session', reply)
      && (Succeeds(reply) <==>
            Permitted(cfg, session) && Names.IsPlain(db) && db in store.files && eng.canRemove(db))
    case List =>
      if !Permitted(cfg, session) then Rejected(store, session, after, session', reply)
      else after == store && session' == session && ListsFolder(eng, store, reply)
    case Query(db, _, _) =>
      if !Permitted(cfg, session) then Rejected(store, session, after, session', reply)
      else if !Names.IsSafe(db) then after == store && session' == session && IsRefusal(reply, 3, Meant(call))
      else if IsBlankText(Statement(call)) then
        after == store && session' == session && IsSqlError(reply, 21, "empty query", Meant(call))
      else QueryDone(eng, store, session, call, after, session', reply)
  }

  lemma CallIsDone(cfg: Config, eng: Engine, number: string -> Json, store: Store, session: Session,
                   call: Call, language: Language)
    requires Reads(eng, number) && store.Valid() && CacheValid(store, session.cache)
    ensures var (after, session', reply) := Handle(cfg, eng, store, session, Text(call, language));
      CallDone(cfg, eng, store, session, call, after, session', reply)
  {
    match call
    case Login(password) => LoginIsAnswered(cfg, eng, number, store, session, password, language);
    case Delete(db) => DeleteIsAnswered(cfg, eng, number, store, session, db, language);
    case List => ListCallIsDone(cfg, eng, number, store, session, language);
    case Query(_, _, _) => QueryCallIsDone(cfg, eng, number, store, session, call, language);
  }

  lemma ListCallIsDone(cfg: Config, eng: Engine, number: string -> Json, store: Store, session: Session,
                       language: Language)
    requires Reads(eng, number) && store.Valid() && CacheValid(store, session.cache)
    ensures var (after, session', reply) := Handle(cfg, eng, store, session, Text(List, language));
      CallDone(cfg, eng, store, session, List, after, session', reply)
  {
    if Permitted(cfg, session) {
      ListIsAnswered(cfg, eng, number, store, session, language);
    } else {
      LockedOut(cfg, eng, number, store, session, List, language);
    }
  }

  lemma QueryCallIsDone(cfg: Config, eng: Engine, number: string -> Json, store: Store, session: Session,
                        call: Call, language: Language)
    requires Reads(eng, number) && store.Valid() && CacheValid(store, session.cache) && call.Query?
    ensures var (after, session', reply) := Handle(cfg, eng, store, session, Text(call, language));
      CallDone(cfg, eng, store, session, call, after, session', reply)
  {
    if !Permitted(cfg, session) {
      LockedOut(cfg, eng, number, store, session, call, language);
    } else if !Names.IsSafe(call.db) || IsBlankText(Statement(call)) {
      BadQueryIsRefused(cfg, eng, number, store, session, call, language);
    } else {
      QueryIsAnswered(cfg, eng, number, store, session, call, language);
    }
  }

  /** A request that is not understood is answered with code 0, the reader's message and the request. */
  lemma NonsenseIsRefused(cfg: Config, eng: Engine, store: Store, session: Session, req: string)
    requires store.Valid() && CacheValid(store, session.cache) && eng.parse(req) == None
    ensures var (after, session', reply) := Handle(cfg, eng, store, session, req);
      && after == store && session' == session
      && reply.JObj? && reply.fields.Keys == {"generic_error", "message", "request"}
      && Get(reply, "generic_error") == Some(JInt(0)) && Get(reply, "request") == Some(JStr(req))
      && Get(reply, "message") == Some(JStr(eng.parseError(req)))
  {
    assert "generic_error"[0] != "message"[0] && "generic_error"[0] != "request"[0] && "message"[0] != "request"[0];
  }

  /** Commands are told apart in any letter case: what counts besides are the name and the statement. */
  lemma CaseDoesNotMatter(json: Json, json': Json, req: string, req': string)
    requires GetStr(json, "cmd").Some? && GetStr(json', "cmd").Some?
    requires LowerAll(GetStr(json, "cmd").value) == LowerAll(GetStr(json', "cmd").value)
    requires GetStr(json, "db") == GetStr(json', "db") && GetStr(json, "query") == GetStr(json', "query")
    ensures var (a, b) := (Command(json, req), Command(json', req'));
      && (a.DoList? <==> b.DoList?) && (a.DoDelete? <==> b.DoDelete?) && (a.DoQuery? <==> b.DoQuery?)
      && (a.DoDelete? ==> a.db == b.db) && (a.DoQuery? ==> a.db == b.db && a.query == b.query)
  {}

  /** The code of a request that cannot be carried out: 1 without a command, 2 for an unknown one, 3 for
      a name that is missing or not accepted, 4 for a missing statement. */
  function RefusalCode(json: Json): Option<int> {
    var (cmd, db) := (GetStr(json, "cmd"), GetStr(json, "db"));
    if cmd == None then Some(1)
    else if LowerAll(cmd.value) != "query" && LowerAll(cmd.value) != "list" && LowerAll(cmd.value) != "delete_db"
    then Some(2)
    else if LowerAll(cmd.value) == "list" then None
    else if db == None then Some(3)
    else if LowerAll(cmd.value) == "query" && GetStr(json, "query") == None then Some(4)
    else if !Names.IsSafe(db.value) then Some(3)
    else None
  }

  /** Such a request is refused with its code: the first two kinds with their text, the others as they
      were read. Nothing changes. */
  lemma BadRequestIsRefused(cfg: Config, eng: Engine, store: Store, session: Session, req: string)
    requires store.Valid() && CacheValid(store, session.cache) && Permitted(cfg, session)
    requires eng.parse(req).Some? && !CarriesPassword(cfg, eng, req) && RefusalCode(eng.parse(req).value).Some?
    ensures var (after, session', reply) := Handle(cfg, eng, store, session, req);
      var code := RefusalCode(eng.parse(req).value).value;
      && after == store && session' == session
      && IsRefusal(reply, code, if code <= 2 then JStr(req) else eng.parse(req).value)
  {
    var code := RefusalCode(eng.parse(req).value).value;
    RefusalFields(code, if code <= 2 then JStr(req) else eng.parse(req).value);
    assert "query"[0] == 'q' && "list"[0] == 'l' && "delete_db"[0] == 'd';
  }
}
