/** What the handle cache changes for a lone connection. The reference is a server that reopens its
    database on every request; on current handles the two agree if and only if no statement minds
    the scratch state of its handle. */
module Cache {
  import opened Basics
  import opened JsonValue
  import opened HandlerSpec
  import opened Handler
  import Names

  /** The reference without a cache: every request starts with no open handle. */
  function ServeReopening(cfg: Config, eng: Engine, store: Store, authenticated: bool, reqs: seq<string>)
    : (Store, bool, seq<Json>)
    requires store.Valid()
    decreases |reqs|
  {
    if reqs == [] then (store, authenticated, [])
    else
      var start := HandlerSpec.Session(authenticated, map[]);
      var (store', session', reply) := Handle(cfg, eng, store, start, reqs[0]);
      HandleKeepsValid(cfg, eng, store, start, reqs[0]);
      var (last, flag, replies) := ServeReopening(cfg, eng, store', session'.authenticated, reqs[1..]);
      (last, flag, [reply] + replies)
  }

  predicate SameRun(cfg: Config, eng: Engine, store: Store, session: Session, reqs: seq<string>)
    requires store.Valid() && CacheValid(store, session.cache)
  {
    var (last, final, replies) := Serve(cfg, eng, store, session, reqs);
    ServeReopening(cfg, eng, store, session.authenticated, reqs) == (last, final.authenticated, replies)
  }

  /** Folder and replies are those of the reference after every request. */
  ghost predicate RunsAgree(cfg: Config, eng: Engine, store: Store, session: Session, reqs: seq<string>)
    requires store.Valid() && CacheValid(store, session.cache)
  {
    forall n: nat :: n <= |reqs| ==> SameRun(cfg, eng, store, session, reqs[..n])
  }

  // -------------------------------------------------------------------------
  // Conditions on requests
  // -------------------------------------------------------------------------

  /** The request names no database through an alias. */
  predicate NamesPlainly(eng: Engine, req: string) {
    match eng.parse(req)
    case None => true
    case Some(json) => match GetStr(json, "db") case Some(db) => '/' !in db case None => true
  }

  /** Contents that the pragmas accept and leave alone. */
  predicate Tuned(eng: Engine, c: Content) { eng.tune(c) == (c, None) }

  /** What the pragmas of a new handle accept they leave tuned. */
  ghost predicate TunesOnce(eng: Engine) {
    forall c :: eng.tune(c).1.None? ==> Tuned(eng, eng.tune(c).0)
  }

  /** The statement leaves every tuned file tuned, as all do but those that change a setting kept in
      the file, like `PRAGMA journal_mode`. */
  ghost predicate KeepsTuned(eng: Engine, query: string) {
    forall store: Store, file: OpenFile, i: nat ::
      var change := eng.exec(store, file, query).0;
      i in change.written && i in store.contents && Tuned(eng, store.contents[i]) ==> Tuned(eng, change.written[i])
  }

  /** Scratch states that make no difference: on any folder the statement does and answers the
      same from each of them as from a clean handle, and leaves such a state again. Without
      transactions, temporary tables, attached files and the like, all states are such. */
  ghost predicate Ignores(eng: Engine, query: string, harmless: Scratch -> bool) {
    forall store: Store, id: nat, scratch: Scratch :: harmless(scratch) ==>
      var (change, left, outcome) := eng.exec(store, OpenFile(id, scratch), query);
      var (change', _, outcome') := eng.exec(store, OpenFile(id, CLEAN), query);
      change == change' && outcome == outcome' && harmless(left)
  }

  /** The statement a request carries, if any. */
  function QueryOf(eng: Engine, req: string): Option<string> {
    match eng.parse(req)
    case None => None
    case Some(json) => GetStr(json, "query")
  }

  ghost predicate Orderly(eng: Engine, req: string) {
    NamesPlainly(eng, req) && (QueryOf(eng, req).Some? ==> KeepsTuned(eng, QueryOf(eng, req).value))
  }

  ghost predicate RequestIgnores(eng: Engine, req: string, harmless: Scratch -> bool) {
    QueryOf(eng, req).Some? ==> Ignores(eng, QueryOf(eng, req).value, harmless)
  }

  lemma GateIsPlain(cfg: Config, eng: Engine, authenticated: bool, req: string)
    ensures match Gate(cfg, eng, authenticated, req).1
      case DoQuery(db, query, _) =>
        QueryOf(eng, req) == Some(query) && (NamesPlainly(eng, req) ==> '/' !in db)
      case DoDelete(db) => NamesPlainly(eng, req) ==> '/' !in db
      case _ => true
  {}

  // -------------------------------------------------------------------------
  // Current handles
  // -------------------------------------------------------------------------

  /** Every cached handle is on the file the folder has under its plain name, and would open again
      without a change. */
  predicate Current(eng: Engine, store: Store, cache: map<string, OpenFile>) {
    forall n :: n in cache ==> HandleCurrent(eng, store, n, cache[n].id)
  }

  predicate HandleCurrent(eng: Engine, store: Store, name: string, id: nat) {
    && '/' !in name && eng.canReach(name) && name in store.files && store.files[name] == id
    && id in store.contents && Tuned(eng, store.contents[id])
  }

  lemma CachedReopens(eng: Engine, store: Store, db: string, id: nat)
    requires store.Valid() && HandleCurrent(eng, store, db, id)
    ensures GetHandle(eng, store, map[], db) == (store, map[db := OpenFile(id, CLEAN)], None)
  {
    Names.PlainNames(db);
    assert store.contents[id := store.contents[id]] == store.contents;
  }

  /** A file opened under a plain name is tuned, and every other file is as it was. */
  lemma OpenNewTunes(eng: Engine, store: Store, db: string)
    requires store.Valid() && '/' !in db && TunesOnce(eng)
    ensures var (after, failure) := OpenNew(eng, store, db);
      && Grows(store, after)
      && (forall i: nat :: i in store.contents && Tuned(eng, store.contents[i]) ==>
            i in after.contents && Tuned(eng, after.contents[i]))
      && (failure.None? ==> db in after.files && HandleCurrent(eng, after, db, after.files[db]))
  {
    Names.PlainNames(db);
    CreateGrows(store, db);
  }

  lemma OpenedIsCurrent(eng: Engine, store: Store, cache: map<string, OpenFile>, db: string)
    requires store.Valid() && Current(eng, store, cache) && '/' !in db && db !in cache && TunesOnce(eng)
    ensures Current(eng, GetHandle(eng, store, cache, db).0, GetHandle(eng, store, cache, db).1)
  {
    Names.PlainNames(db);
    OpenNewTunes(eng, store, db);
  }

  /** With the cache or without, the same file is opened, in the same folder. */
  lemma OpeningAgrees(eng: Engine, store: Store, cache: map<string, OpenFile>, db: string)
    requires store.Valid() && Current(eng, store, cache) && '/' !in db
    ensures var (grown, handles, failure) := GetHandle(eng, store, cache, db);
      && (failure.None? ==> db in handles && (db !in cache ==> handles[db].scratch == CLEAN))
      && GetHandle(eng, store, map[], db).0 == grown && GetHandle(eng, store, map[], db).2 == failure
      && (failure.None? ==> GetHandle(eng, store, map[], db).1 == map[db := OpenFile(handles[db].id, CLEAN)])
  {
    if db in cache {
      CachedReopens(eng, store, db, cache[db].id);
    }
  }

  lemma OpeningKeepsCurrent(eng: Engine, store: Store, cache: map<string, OpenFile>, db: string)
    requires store.Valid() && Current(eng, store, cache) && '/' !in db && TunesOnce(eng)
    ensures Current(eng, GetHandle(eng, store, cache, db).0, GetHandle(eng, store, cache, db).1)
  {
    if db !in cache {
      OpenedIsCurrent(eng, store, cache, db);
    }
  }

  lemma StatementKeepsCurrent(eng: Engine, store: Store, cache: map<string, OpenFile>, db: string, query: string,
                             json: Json)
    requires store.Valid() && Current(eng, store, cache) && KeepsTuned(eng, query) && db in cache
    ensures var (after, scratch, _) := Execute(eng, store, cache[db], query, json);
      Current(eng, after, cache[db := OpenFile(cache[db].id, scratch)])
  {
    ExecuteGrows(eng, store, cache[db], query, json);
    CreateAllContents(store, eng.exec(store, cache[db], query).0.created);
  }

  // -------------------------------------------------------------------------
  // One request
  // -------------------------------------------------------------------------

  /** The statement does to the folder, and answers, what it would from a clean handle. */
  predicate Indifferent(eng: Engine, store: Store, file: OpenFile, query: string, json: Json)
  {
    var (after, _, reply) := Execute(eng, store, file, query, json);
    var (after', _, reply') := Execute(eng, store, OpenFile(file.id, CLEAN), query, json);
    after == after' && reply == reply'
  }

  /** The request runs no statement on a cached handle, or one that is indifferent to its scratch
      state. */
  predicate ScratchIdle(cfg: Config, eng: Engine, store: Store, session: Session, req: string) {
    match Gate(cfg, eng, session.authenticated, req).1
    case DoQuery(db, query, json) =>
      db in session.cache ==> Indifferent(eng, store, session.cache[db], query, json)
    case _ => true
  }

  predicate Agrees(cfg: Config, eng: Engine, store: Store, session: Session, req: string)
    requires store.Valid() && CacheValid(store, session.cache)
  {
    var (after, session', reply) := Handle(cfg, eng, store, session, req);
    Handle(cfg, eng, store, Session(session.authenticated, map[]), req).0 == after
    && Handle(cfg, eng, store, Session(session.authenticated, map[]), req).2 == reply
  }

  lemma QueryKeepsCurrent(eng: Engine, store: Store, cache: map<string, OpenFile>, db: string, query: string,
                          json: Json)
    requires store.Valid() && CacheValid(store, cache) && Current(eng, store, cache)
    requires '/' !in db && TunesOnce(eng) && KeepsTuned(eng, query)
    ensures var (after, handles, _) := Query(eng, store, cache, db, query, json); Current(eng, after, handles)
  {
    OpeningKeepsCurrent(eng, store, cache, db);
    GetHandleKeepsValid(eng, store, cache, db);
    var (grown, handles, failure) := GetHandle(eng, store, cache, db);
    if failure.None? {
      StatementKeepsCurrent(eng, grown, handles, db, query, json);
    }
  }

  lemma QueryIsExact(eng: Engine, store: Store, cache: map<string, OpenFile>, db: string, query: string, json: Json)
    requires store.Valid() && CacheValid(store, cache) && Current(eng, store, cache)
    requires '/' !in db
    ensures var (after, _, reply) := Query(eng, store, cache, db, query, json);
      var (after', _, reply') := Query(eng, store, map[], db, query, json);
      after == after' && reply == reply' <==> (db in cache ==> Indifferent(eng, store, cache[db], query, json))
  {
    OpeningAgrees(eng, store, cache, db);
    GetHandleKeepsValid(eng, store, cache, db);
    var (grown, handles, failure) := GetHandle(eng, store, cache, db);
    if failure.None? && db !in cache {
      assert handles[db] == OpenFile(handles[db].id, CLEAN);
    }
  }

  lemma StepKeepsCurrent(cfg: Config, eng: Engine, store: Store, session: Session, req: string)
    requires store.Valid() && CacheValid(store, session.cache) && Current(eng, store, session.cache)
    requires TunesOnce(eng) && Orderly(eng, req)
    ensures var (after, session', _) := Handle(cfg, eng, store, session, req); Current(eng, after, session'.cache)
  {
    GateIsPlain(cfg, eng, session.authenticated, req);
    match Gate(cfg, eng, session.authenticated, req).1
    case DoQuery(db, query, json) => QueryKeepsCurrent(eng, store, session.cache, db, query, json);
    case _ =>
  }

  lemma StepIsExact(cfg: Config, eng: Engine, store: Store, session: Session, req: string)
    requires store.Valid() && CacheValid(store, session.cache) && Current(eng, store, session.cache)
    requires TunesOnce(eng) && Orderly(eng, req)
    ensures Agrees(cfg, eng, store, session, req) <==> ScratchIdle(cfg, eng, store, session, req)
    ensures var (after, session', _) := Handle(cfg, eng, store, session, req); Current(eng, after, session'.cache)
  {
    StepKeepsCurrent(cfg, eng, store, session, req);
    GateIsPlain(cfg, eng, session.authenticated, req);
    match Gate(cfg, eng, session.authenticated, req).1
    case DoQuery(db, query, json) => QueryIsExact(eng, store, session.cache, db, query, json);
    case _ =>
  }

  // -------------------------------------------------------------------------
  // Runs
  // -------------------------------------------------------------------------

  /** Along the run with the cache every request is indifferent to the scratch states. */
  predicate AllIdle(cfg: Config, eng: Engine, store: Store, session: Session, reqs: seq<string>)
    requires store.Valid() && CacheValid(store, session.cache)
    decreases |reqs|
  {
    reqs == [] ||
    (var (after, session', _) := Handle(cfg, eng, store, session, reqs[0]);
     HandleKeepsValid(cfg, eng, store, session, reqs[0]);
     ScratchIdle(cfg, eng, store, session, reqs[0]) && AllIdle(cfg, eng, after, session', reqs[1..]))
  }

  lemma NothingRun(cfg: Config, eng: Engine, store: Store, session: Session)
    requires store.Valid() && CacheValid(store, session.cache)
    ensures SameRun(cfg, eng, store, session, [])
  {}

  lemma ServeCons(cfg: Config, eng: Engine, store: Store, session: Session, req: string, rest: seq<string>)
    requires store.Valid() && CacheValid(store, session.cache)
    ensures var (after, session', reply) := Handle(cfg, eng, store, session, req);
      && after.Valid() && CacheValid(after, session'.cache)
      && var (last, final, replies) := Serve(cfg, eng, after, session', rest);
         Serve(cfg, eng, store, session, [req] + rest) == (last, final, [reply] + replies)
  {
    HandleKeepsValid(cfg, eng, store, session, req);
    assert ([req] + rest)[1..] == rest;
  }

  lemma ReopeningCons(cfg: Config, eng: Engine, store: Store, flag: bool, req: string, rest: seq<string>)
    requires store.Valid()
    ensures var (after, session', reply) := Handle(cfg, eng, store, Session(flag, map[]), req);
      && after.Valid()
      && var (last, final, replies) := ServeReopening(cfg, eng, after, session'.authenticated, rest);
         ServeReopening(cfg, eng, store, flag, [req] + rest) == (last, final, [reply] + replies)
  {
    HandleKeepsValid(cfg, eng, store, Session(flag, map[]), req);
    assert ([req] + rest)[1..] == rest;
  }

  lemma SameRunCons(cfg: Config, eng: Engine, store: Store, session: Session, req: string, rest: seq<string>)
    requires store.Valid() && CacheValid(store, session.cache) && Agrees(cfg, eng, store, session, req)
    ensures var (after, session', _) := Handle(cfg, eng, store, session, req);
      && after.Valid() && CacheValid(after, session'.cache)
      && (SameRun(cfg, eng, store, session, [req] + rest) <==> SameRun(cfg, eng, after, session', rest))
  {
    ServeCons(cfg, eng, store, session, req, rest);
    ReopeningCons(cfg, eng, store, session.authenticated, req, rest);
    GateFlag(cfg, eng, store, session, req);
    var (after, session', reply) := Handle(cfg, eng, store, session, req);
    SameTail(reply, Serve(cfg, eng, after, session', rest).2,
             ServeReopening(cfg, eng, after, session'.authenticated, rest).2);
  }

  lemma OneRun(cfg: Config, eng: Engine, store: Store, session: Session, req: string)
    requires store.Valid() && CacheValid(store, session.cache)
    ensures SameRun(cfg, eng, store, session, [req]) <==> Agrees(cfg, eng, store, session, req)
  {
    ServeCons(cfg, eng, store, session, req, []);
    ReopeningCons(cfg, eng, store, session.authenticated, req, []);
    GateFlag(cfg, eng, store, session, req);
    assert [req] + [] == [req];
    var reply := Handle(cfg, eng, store, session, req).2;
    var reply' := Handle(cfg, eng, store, Session(session.authenticated, map[]), req).2;
    assert [reply] + [] == [reply] && [reply'] + [] == [reply'];
    assert reply == [reply][0] && reply' == [reply'][0];
  }

  /** The flag does not depend on the cache. */
  lemma GateFlag(cfg: Config, eng: Engine, store: Store, session: Session, req: string)
    requires store.Valid() && CacheValid(store, session.cache)
    ensures Handle(cfg, eng, store, session, req).1.authenticated
      == Handle(cfg, eng, store, Session(session.authenticated, map[]), req).1.authenticated
  {}

  lemma SameTail(reply: Json, a: seq<Json>, b: seq<Json>)
    ensures [reply] + a == [reply] + b <==> a == b
  {
    assert ([reply] + a)[1..] == a && ([reply] + b)[1..] == b;
  }

  lemma RunsAgreeCons(cfg: Config, eng: Engine, store: Store, session: Session, reqs: seq<string>)
    requires store.Valid() && CacheValid(store, session.cache) && reqs != []
    ensures var (after, session', _) := Handle(cfg, eng, store, session, reqs[0]);
      && after.Valid() && CacheValid(after, session'.cache)
      && (RunsAgree(cfg, eng, store, session, reqs) <==>
            Agrees(cfg, eng, store, session, reqs[0]) && RunsAgree(cfg, eng, after, session', reqs[1..]))
  {
    HandleKeepsValid(cfg, eng, store, session, reqs[0]);
    var (after, session', _) := Handle(cfg, eng, store, session, reqs[0]);
    if RunsAgree(cfg, eng, store, session, reqs) {
      assert reqs[..1] == [reqs[0]];
      assert SameRun(cfg, eng, store, session, reqs[..1]);
      OneRun(cfg, eng, store, session, reqs[0]);
      forall n: nat | n <= |reqs[1..]|
        ensures SameRun(cfg, eng, after, session', reqs[1..][..n])
      {
        assert SameRun(cfg, eng, store, session, reqs[..n + 1]);
        assert reqs[..n + 1] == [reqs[0]] + reqs[1..][..n];
        SameRunCons(cfg, eng, store, session, reqs[0], reqs[1..][..n]);
      }
    }
    if Agrees(cfg, eng, store, session, reqs[0]) && RunsAgree(cfg, eng, after, session', reqs[1..]) {
      forall n: nat | n <= |reqs|
        ensures SameRun(cfg, eng, store, session, reqs[..n])
      {
        if n > 0 {
          assert SameRun(cfg, eng, after, session', reqs[1..][..n - 1]);
          assert reqs[..n] == [reqs[0]] + reqs[1..][..n - 1];
          SameRunCons(cfg, eng, store, session, reqs[0], reqs[1..][..n - 1]);
        } else {
          NothingRun(cfg, eng, store, session);
        }
      }
    }
  }

  /** On plain names and statements that keep files tuned, the cache makes no difference to replies
      and files after any request if and only if every statement that runs on a cached handle is
      indifferent to its scratch state. Opens that fail are included. */
  lemma {:induction false} CacheIsExact(cfg: Config, eng: Engine, store: Store, session: Session, reqs: seq<string>)
    requires store.Valid() && CacheValid(store, session.cache) && Current(eng, store, session.cache)
    requires TunesOnce(eng) && forall i :: 0 <= i < |reqs| ==> Orderly(eng, reqs[i])
    ensures RunsAgree(cfg, eng, store, session, reqs) <==> AllIdle(cfg, eng, store, session, reqs)
    decreases |reqs|
  {
    if reqs == [] {
      NothingRun(cfg, eng, store, session);
    } else {
      StepIsExact(cfg, eng, store, session, reqs[0]);
      HandleKeepsValid(cfg, eng, store, session, reqs[0]);
      var (after, session', _) := Handle(cfg, eng, store, session, reqs[0]);
      CacheIsExact(cfg, eng, after, session', reqs[1..]);
      RunsAgreeCons(cfg, eng, store, session, reqs);
    }
  }

  // -------------------------------------------------------------------------
  // When the cache makes no difference
  // -------------------------------------------------------------------------

  ghost predicate AllHarmless(cache: map<string, OpenFile>, harmless: Scratch -> bool) {
    forall n :: n in cache ==> harmless(cache[n].scratch)
  }

  lemma IgnoringStatement(eng: Engine, store: Store, file: OpenFile, query: string, json: Json,
                          harmless: Scratch -> bool)
    requires harmless(file.scratch) && Ignores(eng, query, harmless)
    ensures Indifferent(eng, store, file, query, json) && harmless(Execute(eng, store, file, query, json).1)
  {
    assert file == OpenFile(file.id, file.scratch);
  }

  lemma OpeningKeepsHarmless(eng: Engine, store: Store, cache: map<string, OpenFile>, db: string,
                             harmless: Scratch -> bool)
    requires store.Valid() && AllHarmless(cache, harmless) && harmless(CLEAN)
    ensures AllHarmless(GetHandle(eng, store, cache, db).1, harmless)
  {}

  lemma StaysHarmless(cache: map<string, OpenFile>, db: string, file: OpenFile, harmless: Scratch -> bool)
    requires AllHarmless(cache, harmless) && harmless(file.scratch)
    ensures AllHarmless(cache[db := file], harmless)
  {}

  lemma IgnoringQuery(eng: Engine, store: Store, cache: map<string, OpenFile>, db: string, query: string, json: Json,
                      harmless: Scratch -> bool)
    requires store.Valid() && CacheValid(store, cache) && AllHarmless(cache, harmless) && harmless(CLEAN)
    requires Ignores(eng, query, harmless)
    ensures AllHarmless(Query(eng, store, cache, db, query, json).1, harmless)
  {
    GetHandleKeepsValid(eng, store, cache, db);
    OpeningKeepsHarmless(eng, store, cache, db, harmless);
    var (grown, handles, failure) := GetHandle(eng, store, cache, db);
    if failure.None? {
      var file := handles[db];
      IgnoringStatement(eng, grown, file, query, json, harmless);
      StaysHarmless(handles, db, OpenFile(file.id, Execute(eng, grown, file, query, json).1), harmless);
    }
  }

  lemma IgnoringRequest(cfg: Config, eng: Engine, store: Store, session: Session, req: string,
                        harmless: Scratch -> bool)
    requires store.Valid() && CacheValid(store, session.cache)
    requires AllHarmless(session.cache, harmless) && harmless(CLEAN)
    requires RequestIgnores(eng, req, harmless)
    ensures ScratchIdle(cfg, eng, store, session, req)
    ensures AllHarmless(Handle(cfg, eng, store, session, req).1.cache, harmless)
  {
    GateIsPlain(cfg, eng, session.authenticated, req);
    match Gate(cfg, eng, session.authenticated, req).1
    case DoQuery(db, query, json) =>
      IgnoringQuery(eng, store, session.cache, db, query, json, harmless);
      if db in session.cache {
        IgnoringStatement(eng, store, session.cache[db], query, json, harmless);
      }
    case _ =>
  }

  lemma {:induction false} IgnoringIsIdle(cfg: Config, eng: Engine, store: Store, session: Session, reqs: seq<string>,
                                          harmless: Scratch -> bool)
    requires store.Valid() && CacheValid(store, session.cache)
    requires AllHarmless(session.cache, harmless) && harmless(CLEAN)
    requires forall i :: 0 <= i < |reqs| ==> RequestIgnores(eng, reqs[i], harmless)
    ensures AllIdle(cfg, eng, store, session, reqs)
    decreases |reqs|
  {
    if reqs != [] {
      IgnoringRequest(cfg, eng, store, session, reqs[0], harmless);
      HandleKeepsValid(cfg, eng, store, session, reqs[0]);
      var (after, session', _) := Handle(cfg, eng, store, session, reqs[0]);
      IgnoringIsIdle(cfg, eng, after, session', reqs[1..], harmless);
    }
  }

  /** So where the scratch states make no difference to any statement sent, a lone connection with
      its cache gives the same replies and leaves the same files as the reference. */
  lemma LoneConnection(cfg: Config, eng: Engine, store: Store, session: Session, reqs: seq<string>,
                       harmless: Scratch -> bool)
    requires store.Valid() && CacheValid(store, session.cache) && Current(eng, store, session.cache)
    requires AllHarmless(session.cache, harmless) && harmless(CLEAN) && TunesOnce(eng)
    requires forall i :: 0 <= i < |reqs| ==> Orderly(eng, reqs[i]) && RequestIgnores(eng, reqs[i], harmless)
    ensures SameRun(cfg, eng, store, session, reqs)
  {
    IgnoringIsIdle(cfg, eng, store, session, reqs, harmless);
    CacheIsExact(cfg, eng, store, session, reqs);
    assert reqs[..|reqs|] == reqs;
    assert SameRun(cfg, eng, store, session, reqs[..|reqs|]);
  }

  // -------------------------------------------------------------------------
  // When it does
  // -------------------------------------------------------------------------

  /** The statement answers otherwise than from a clean handle. */
  predicate ScratchSpeaks(cfg: Config, eng: Engine, store: Store, session: Session, req: string) {
    match Gate(cfg, eng, session.authenticated, req).1
    case DoQuery(db, query, json) =>
      db in session.cache
      && Execute(eng, store, session.cache[db], query, json).2
         != Execute(eng, store, OpenFile(session.cache[db].id, CLEAN), query, json).2
    case _ => false
  }

  lemma SpeakingDiffers(cfg: Config, eng: Engine, store: Store, session: Session, req: string)
    requires store.Valid() && CacheValid(store, session.cache) && Current(eng, store, session.cache)
    requires ScratchSpeaks(cfg, eng, store, session, req)
    ensures Handle(cfg, eng, store, session, req).2
      != Handle(cfg, eng, store, Session(session.authenticated, map[]), req).2
  {
    match Gate(cfg, eng, session.authenticated, req).1
    case DoQuery(db, query, json) => CachedReopens(eng, store, db, session.cache[db].id);
    case _ =>
  }

  /** Whatever the engine: once a cached handle's scratch state, such as an open transaction, makes a
      statement answer otherwise than a clean handle would, the replies of the two runs differ,
      whatever follows. */
  lemma {:induction false} ScratchShows(cfg: Config, eng: Engine, store: Store, session: Session,
                                        front: seq<string>, req: string, back: seq<string>)
    requires store.Valid() && CacheValid(store, session.cache) && Current(eng, store, session.cache)
    requires TunesOnce(eng) && forall i :: 0 <= i < |front| ==> Orderly(eng, front[i])
    requires AllIdle(cfg, eng, store, session, front)
    requires var (after, session', _) := Serve(cfg, eng, store, session, front);
      ScratchSpeaks(cfg, eng, after, session', req)
    ensures Serve(cfg, eng, store, session, front + ([req] + back)).2
      != ServeReopening(cfg, eng, store, session.authenticated, front + ([req] + back)).2
    decreases |front|
  {
    var first := if front == [] then req else front[0];
    var rest := if front == [] then back else front[1..] + ([req] + back);
    FrontCons(front, req, back);
    ServeCons(cfg, eng, store, session, first, rest);
    ReopeningCons(cfg, eng, store, session.authenticated, first, rest);
    var (after, session', reply) := Handle(cfg, eng, store, session, first);
    if front == [] {
      SpeakingDiffers(cfg, eng, store, session, req);
      var reply' := Handle(cfg, eng, store, Session(session.authenticated, map[]), req).2;
      HeadsDiffer(reply, Serve(cfg, eng, store, session, [first] + rest).2,
                  reply', ServeReopening(cfg, eng, store, session.authenticated, [first] + rest).2);
    } else {
      StepIsExact(cfg, eng, store, session, first);
      GateFlag(cfg, eng, store, session, first);
      ScratchShows(cfg, eng, after, session', front[1..], req, back);
      SameTail(reply, Serve(cfg, eng, after, session', rest).2,
               ServeReopening(cfg, eng, after, session'.authenticated, rest).2);
    }
  }

  lemma FrontCons(front: seq<string>, req: string, back: seq<string>)
    ensures var all := front + ([req] + back);
      all == (if front == [] then [req] + back else [front[0]] + (front[1..] + ([req] + back)))
  {}

  lemma HeadsDiffer(a: Json, x: seq<Json>, b: Json, y: seq<Json>)
    requires x != [] && x[0] == a && y != [] && y[0] == b && a != b
    ensures x != y
  {}

  /** The folder after the pragmas have run on one more file. */
  function Retuned(eng: Engine, store: Store, id: nat): Store
    requires id in store.contents
  {
    store.(contents := store.contents[id := eng.tune(store.contents[id]).0])
  }

  /** And if a statement leaves a file that the pragmas would change again, the next statement that
      writes nothing leaves other contents with the cache than with the reference. */
  lemma RetuningShows(eng: Engine, store: Store, cache: map<string, OpenFile>, db: string, query: string, json: Json)
    requires store.Valid() && CacheValid(store, cache) && db in cache
    requires '/' !in db && eng.canReach(db) && db in store.files && store.files[db] == cache[db].id
    requires eng.tune(store.contents[cache[db].id]).1.None? && !Tuned(eng, store.contents[cache[db].id])
    requires eng.exec(store, cache[db], query).0 == Change([], map[])
    requires eng.exec(Retuned(eng, store, cache[db].id), OpenFile(cache[db].id, CLEAN), query).0 == Change([], map[])
    ensures Query(eng, store, cache, db, query, json).0 != Query(eng, store, map[], db, query, json).0
  {
    Names.PlainNames(db);
    var id := cache[db].id;
    var retuned := Retuned(eng, store, id);
    assert GetHandle(eng, store, map[], db) == (retuned, map[db := OpenFile(id, CLEAN)], None);
    assert Perform(retuned, Change([], map[])).contents[id] == eng.tune(store.contents[id]).0;
    assert Perform(store, Change([], map[])).contents[id] == store.contents[id];
  }
}
