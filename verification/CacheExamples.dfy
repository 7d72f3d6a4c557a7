/** Two runs on which the cache makes a difference: a transaction sent in two requests, and a
    statement that changes the journal mode. */
module CacheExamples {
  import opened Basics
  import opened JsonValue
  import opened HandlerSpec
  import opened Handler
  import opened Cache
  import Names
  import Tables

  function QueryJson(query: string): Json {
    JObj(map["cmd" := JStr("query"), "db" := JStr("a"), "query" := JStr(query)])
  }

  /** Every request is a statement on database `a`. */
  function OnlyQueries(tune: Content -> (Content, Option<(int, string)>),
                       exec: (Store, OpenFile, string) -> (Change, Scratch, Outcome)): Engine {
    PlainEngine(query => Some(QueryJson(query)), exec).(tune := tune)
  }

  const EMPTY := Store(map[], map[], 0)

  const NO_ROWS: Outcome := Done(Tables.Table([], []))

  const NO_TRANSACTION: Outcome := Failed(1, "cannot commit - no transaction is active")

  const NOTHING := Change([], map[])

  /** The folder with one database `a`. */
  function OneDatabase(c: Content): Store { Store(map["a" := 0], map[0 := c], 1) }

  lemma IsQuery()
    ensures LowerAll("query") == "query"
  {
    LowersTo("query", "query");
  }

  lemma GateOpens(cfg: Config, eng: Engine, query: string)
    requires cfg.auth == "" && !IsBlankText(query) && eng.parse(query) == Some(QueryJson(query))
    ensures Gate(cfg, eng, false, query) == (false, DoQuery("a", query, QueryJson(query)))
  {
    Names.PlainNames("a");
    IsQuery();
  }

  lemma OneRequest(cfg: Config, eng: Engine, store: Store, cache: map<string, OpenFile>, query: string)
    requires cfg.auth == "" && !IsBlankText(query) && eng.parse(query) == Some(QueryJson(query))
    requires store.Valid() && CacheValid(store, cache)
    ensures var (after, handles, reply) := Query(eng, store, cache, "a", query, QueryJson(query));
      Handle(cfg, eng, store, Session(false, cache), query) == (after, Session(false, handles), reply)
  {
    GateOpens(cfg, eng, query);
  }

  lemma Opening(eng: Engine, store: Store, c: Content)
    requires store == EMPTY || store == OneDatabase(c)
    requires eng.canReach("a") && eng.tune(if store == EMPTY then [] else c) == (c, None)
    ensures store.Valid()
    ensures GetHandle(eng, store, map[], "a") == (OneDatabase(c), map["a" := OpenFile(0, CLEAN)], None)
  {
    Names.PlainNames("a");
    var made := Create(store, "a");
    assert made.contents[0 := c] == OneDatabase(c).contents;
  }

  lemma NothingHappens(store: Store)
    ensures Perform(store, NOTHING) == store
  {
    assert Perform(store, NOTHING).contents == store.contents;
  }

  // -------------------------------------------------------------------------
  // A transaction in two requests
  // -------------------------------------------------------------------------

  /** An open transaction is scratch state of its handle. */
  function Transact(store: Store, file: OpenFile, query: string): (Change, Scratch, Outcome) {
    if query == "BEGIN" then (NOTHING, [1], NO_ROWS)
    else (NOTHING, CLEAN, if file.scratch == CLEAN then NO_TRANSACTION else NO_ROWS)
  }

  const TRANSACTING := OnlyQueries(c => (c, None), Transact)

  lemma Begins(cfg: Config)
    requires cfg.auth == ""
    ensures EMPTY.Valid()
    ensures var (after, session, _) := Handle(cfg, TRANSACTING, EMPTY, FRESH_SESSION, "BEGIN");
      after == OneDatabase([]) && session == Session(false, map["a" := OpenFile(0, [1])])
  {
    assert !IsBlank("BEGIN"[0]);
    OneRequest(cfg, TRANSACTING, EMPTY, map[], "BEGIN");
    Opening(TRANSACTING, EMPTY, []);
    NothingHappens(OneDatabase([]));
    var clean := map["a" := OpenFile(0, CLEAN)];
    assert clean["a" := OpenFile(0, [1])] == map["a" := OpenFile(0, [1])];
  }

  lemma CommitSpeaks(cfg: Config)
    requires cfg.auth == ""
    ensures ScratchSpeaks(cfg, TRANSACTING, OneDatabase([]), Session(false, map["a" := OpenFile(0, [1])]), "COMMIT")
  {
    assert !IsBlank("COMMIT"[0]);
    GateOpens(cfg, TRANSACTING, "COMMIT");
    var committed := Tables.Payload(NO_ROWS.table);
    assert "columns" in committed.fields;
  }

  lemma BeginsIdly(cfg: Config)
    requires cfg.auth == ""
    ensures EMPTY.Valid() && TunesOnce(TRANSACTING) && Orderly(TRANSACTING, "BEGIN")
    ensures AllIdle(cfg, TRANSACTING, EMPTY, FRESH_SESSION, ["BEGIN"])
  {
    assert ["BEGIN"][1..] == [];
  }

  lemma ServesBegin(cfg: Config)
    requires cfg.auth == ""
    ensures EMPTY.Valid()
    ensures var (after, session, _) := Serve(cfg, TRANSACTING, EMPTY, FRESH_SESSION, ["BEGIN"]);
      after == OneDatabase([]) && session == Session(false, map["a" := OpenFile(0, [1])])
  {
    Begins(cfg);
    ServeCons(cfg, TRANSACTING, EMPTY, FRESH_SESSION, "BEGIN", []);
    assert ["BEGIN"] + [] == ["BEGIN"];
  }

  /** `BEGIN` and `COMMIT` in separate requests: with the cache the transaction commits, while the
      reference reopens in between and has none to commit. */
  lemma TransactionsNeedTheCache(cfg: Config)
    requires cfg.auth == ""
    ensures EMPTY.Valid()
    ensures Serve(cfg, TRANSACTING, EMPTY, FRESH_SESSION, ["BEGIN", "COMMIT"]).2
      != ServeReopening(cfg, TRANSACTING, EMPTY, false, ["BEGIN", "COMMIT"]).2
  {
    BeginsIdly(cfg);
    ServesBegin(cfg);
    CommitSpeaks(cfg);
    assert ["BEGIN"] + (["COMMIT"] + []) == ["BEGIN", "COMMIT"];
    ScratchShows(cfg, TRANSACTING, EMPTY, FRESH_SESSION, ["BEGIN"], "COMMIT", []);
  }

  // -------------------------------------------------------------------------
  // A setting kept in the file
  // -------------------------------------------------------------------------

  const JOURNAL_OFF := "PRAGMA journal_mode=DELETE"

  /** The journal mode is kept in the file. */
  function Journal(store: Store, file: OpenFile, query: string): (Change, Scratch, Outcome) {
    (if query == JOURNAL_OFF then Change([], map[file.id := [0]]) else NOTHING, CLEAN, NO_ROWS)
  }

  /** The pragmas of a new handle switch it back. */
  const JOURNALING := OnlyQueries(c => ([1], None), Journal)

  lemma ModeIsNoBlank()
    ensures !IsBlankText(JOURNAL_OFF)
  {
    assert !IsBlank(JOURNAL_OFF[0]);
  }

  lemma ModeQuery(json: Json)
    ensures EMPTY.Valid()
    ensures var (after, handles, _) := Query(JOURNALING, EMPTY, map[], "a", JOURNAL_OFF, json);
      after == OneDatabase([0]) && handles == map["a" := OpenFile(0, CLEAN)]
  {
    Opening(JOURNALING, EMPTY, [1]);
    assert Perform(OneDatabase([1]), Change([], map[0 := [0]])).contents == OneDatabase([0]).contents;
    var clean := map["a" := OpenFile(0, CLEAN)];
    assert clean["a" := OpenFile(0, CLEAN)] == clean;
  }

  lemma ChangesMode(cfg: Config)
    requires cfg.auth == ""
    ensures EMPTY.Valid()
    ensures var (after, session, _) := Handle(cfg, JOURNALING, EMPTY, FRESH_SESSION, JOURNAL_OFF);
      after == OneDatabase([0]) && session == Session(false, map["a" := OpenFile(0, CLEAN)])
  {
    ModeIsNoBlank();
    OneRequest(cfg, JOURNALING, EMPTY, map[], JOURNAL_OFF);
    ModeQuery(QueryJson(JOURNAL_OFF));
  }

  lemma QueriesDiffer(query: string, json: Json)
    requires query != JOURNAL_OFF
    ensures var (store, cache) := (OneDatabase([0]), map["a" := OpenFile(0, CLEAN)]);
      && store.Valid() && CacheValid(store, cache)
      && Query(JOURNALING, store, cache, "a", query, json).0 != Query(JOURNALING, store, map[], "a", query, json).0
  {
    RetuningShows(JOURNALING, OneDatabase([0]), map["a" := OpenFile(0, CLEAN)], "a", query, json);
  }

  lemma ThenDiffers(cfg: Config, query: string)
    requires cfg.auth == "" && !IsBlankText(query) && query != JOURNAL_OFF
    ensures var (store, cache) := (OneDatabase([0]), map["a" := OpenFile(0, CLEAN)]);
      && store.Valid() && CacheValid(store, cache)
      && Handle(cfg, JOURNALING, store, Session(false, cache), query).0
         != Handle(cfg, JOURNALING, store, FRESH_SESSION, query).0
  {
    var store, cache := OneDatabase([0]), map["a" := OpenFile(0, CLEAN)];
    OneRequest(cfg, JOURNALING, store, cache, query);
    OneRequest(cfg, JOURNALING, store, map[], query);
    QueriesDiffer(query, QueryJson(query));
  }

  /** After `PRAGMA journal_mode=DELETE`, whatever is sent next, the file keeps that mode with the
      cache and not with the reference, whose new handle switches it back. */
  lemma JournalModeShows(cfg: Config, query: string)
    requires cfg.auth == "" && !IsBlankText(query) && query != JOURNAL_OFF
    ensures EMPTY.Valid() && !SameRun(cfg, JOURNALING, EMPTY, FRESH_SESSION, [JOURNAL_OFF, query])
  {
    ChangesMode(cfg);
    ThenDiffers(cfg, query);
    assert [JOURNAL_OFF] + [query] == [JOURNAL_OFF, query];
    SameRunCons(cfg, JOURNALING, EMPTY, FRESH_SESSION, JOURNAL_OFF, [query]);
    OneRun(cfg, JOURNALING, OneDatabase([0]), Session(false, map["a" := OpenFile(0, CLEAN)]), query);
  }
}
