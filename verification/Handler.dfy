/** The request handler as the server runs it: an object that owns the authentication flag and
    the handle cache, and works on the folder it shares with the other connections. */
module Handler {
  import opened Basics
  import opened JsonValue
  import opened HandlerSpec
  import Tables
  import Names

  class Folder {
    var store: Store

    constructor ()
      ensures store == Store(map[], map[], 0) && store.Valid()
    {
      store := Store(map[], map[], 0);
    }
  }

  class RequestHandler {
    const config: Config
    const eng: Engine
    const folder: Folder
    var databases: map<string, OpenFile>
    var authenticated: bool

    function Session(): Session
      reads this
    {
      HandlerSpec.Session(authenticated, databases)
    }

    ghost predicate Valid()
      reads this, folder
    {
      folder.store.Valid() && CacheValid(folder.store, databases)
    }

    constructor (config: Config, eng: Engine, folder: Folder)
      requires folder.store.Valid()
      ensures Valid() && Session() == FRESH_SESSION
      ensures this.config == config && this.eng == eng && this.folder == folder
    {
      this.config := config;
      this.eng := eng;
      this.folder := folder;
      databases := map[];
      authenticated := false;
    }

    /** Exactly the specified step on the folder and on this connection's own state. */
    method HandleRequest(req: string) returns (reply: Json)
      requires Valid()
      modifies this, folder
      ensures Valid()
      ensures (folder.store, Session(), reply) == Handle(config, eng, old(folder.store), old(Session()), req)
    {
      HandleKeepsValid(config, eng, folder.store, Session(), req);
      match eng.parse(req) {
        case None =>
          reply := FormatError(eng.parseError(req), req);
        case Some(json) =>
          if config.auth != "" {
            var auth := GetStr(json, "auth");
            if auth == Some(config.auth) {
              authenticated := true;
              return ResultReply(true);
            }
            if !authenticated {
              return ResultReply(false);
            }
          }
          var cmd := GetStr(json, "cmd");
          if cmd.None? {
            return GenericError(NO_COMMAND_SPECIFIED, JStr(req));
          }
          if LowerAll(cmd.value) == "query" {
            reply := HandleQuery(json);
          } else if LowerAll(cmd.value) == "list" {
            reply := ListReply(eng, folder.store);
          } else if LowerAll(cmd.value) == "delete_db" {
            reply := HandleDeleteDb(json);
          } else {
            reply := GenericError(UNKNOWN_COMMAND, JStr(req));
          }
      }
    }

    method HandleQuery(json: Json) returns (reply: Json)
      requires Valid()
      modifies this`databases, folder
      ensures match QueryAction(json)
        case DoQuery(db, query, j) =>
          (folder.store, databases, reply) == Query(eng, old(folder.store), old(databases), db, query, j)
        case Answer(answer) => reply == answer && folder.store == old(folder.store) && databases == old(databases)
        case _ => false
    {
      var db, query := GetStr(json, "db"), GetStr(json, "query");
      if db.None? {
        return GenericError(NO_DATABASE_SPECIFIED, json);
      }
      if query.None? {
        return GenericError(ERROR_READING_FROM_CLIENT, json);
      }
      if !Names.IsSafe(db.value) {
        return GenericError(NO_DATABASE_SPECIFIED, json);
      }
      if IsBlankText(query.value) {
        return SqlError((SQLITE_MISUSE, "empty query"), json);
      }
      reply := RunQuery(db.value, query.value, json);
    }

    method RunQuery(db: string, query: string, json: Json) returns (reply: Json)
      requires Valid()
      modifies this`databases, folder
      ensures (folder.store, databases, reply) == Query(eng, old(folder.store), old(databases), db, query, json)
    {
      GetHandleKeepsValid(eng, folder.store, databases, db);
      var failure := GetConnection(db);
      match failure {
        case Some(error) =>
          reply := SqlError(error, json);
        case None =>
          var file := databases[db];
          var (change, scratch, outcome) := eng.exec(folder.store, file, query);
          folder.store := Perform(folder.store, change);
          databases := databases[db := OpenFile(file.id, scratch)];
          match outcome {
            case Done(table) => reply := Tables.BuildPayload(table);
            case Failed(code, message) => reply := SqlError((code, message), json);
          }
      }
    }

    /** The cached handle, or a new one opened and cached. A failure caches nothing, though the
        file may have been created by then. */
    method GetConnection(db: string) returns (failure: Option<(int, string)>)
      requires Valid()
      modifies this`databases, folder
      ensures (folder.store, databases, failure) == GetHandle(eng, old(folder.store), old(databases), db)
    {
      if db !in databases {
        var entry := Names.Entry(db);
        if !eng.canReach(entry) {
          return Some(eng.reachError(entry));
        }
        CreateGrows(folder.store, entry);
        folder.store := Create(folder.store, entry);
        var id := folder.store.files[entry];
        var (tuned, problem) := eng.tune(folder.store.contents[id]);
        folder.store := folder.store.(contents := folder.store.contents[id := tuned]);
        if problem.Some? {
          return problem;
        }
        databases := databases[db := OpenFile(id, CLEAN)];
      }
      return None;
    }

    method HandleDeleteDb(json: Json) returns (reply: Json)
      requires Valid()
      modifies this`databases, folder
      ensures match DeleteAction(json)
        case DoDelete(db) =>
          if Removes(eng, old(folder.store), db) then
            && reply == ResultReply(true)
            && folder.store == Remove(old(folder.store), db) && databases == old(databases) - {db}
          else reply == ResultReply(false) && folder.store == old(folder.store) && databases == old(databases)
        case Answer(answer) => reply == answer && folder.store == old(folder.store) && databases == old(databases)
        case _ => false
    {
      var db := GetStr(json, "db");
      if db.None? {
        return GenericError(NO_DATABASE_SPECIFIED, json);
      }
      if !Names.IsSafe(db.value) {
        return GenericError(NO_DATABASE_SPECIFIED, json);
      }
      var removed := Removes(eng, folder.store, db.value);
      if removed {
        folder.store := Remove(folder.store, db.value);
        databases := databases - {db.value};
      }
      reply := ResultReply(removed);
    }
  }

  // -------------------------------------------------------------------------
  // A lone connection
  // -------------------------------------------------------------------------

  /** All replies of a lone connection, and what it leaves behind. */
  function Serve(cfg: Config, eng: Engine, store: Store, session: HandlerSpec.Session, reqs: seq<string>)
    : (Store, HandlerSpec.Session, seq<Json>)
    requires store.Valid() && CacheValid(store, session.cache)
    decreases |reqs|
  {
    if reqs == [] then (store, session, [])
    else
      var (store', session', reply) := Handle(cfg, eng, store, session, reqs[0]);
      HandleKeepsValid(cfg, eng, store, session, reqs[0]);
      var (last, final, replies) := Serve(cfg, eng, store', session', reqs[1..]);
      (last, final, [reply] + replies)
  }
}
