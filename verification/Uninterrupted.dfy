/** The steps of a handler, run without anybody in between, are the request handler itself. */
module Uninterrupted {
  import opened Basics
  import opened JsonValue
  import opened HandlerSpec
  import opened Framing
  import opened System
  import Permits

  /** Where a handler ends when nobody interrupts it. */
  function Complete(cfg: Config, eng: Engine, store: Store, session: Session, req: string, work: Work): (Store,
        Session, Json)
    requires store.Valid() && CacheValid(store, session.cache) && WorkValid(session, work)
    decreases Permits.Rank(work)
  {
    if work.Finished? then (store, session, work.reply)
    else
      MicroKeepsValid(cfg, eng, store, session, req, work);
      Permits.MicroDescends(cfg, eng, store, session, req, work);
      var e := Micro(cfg, eng, store, session, req, work);
      Complete(cfg, eng, e.store, e.session, req, e.work)
  }

  lemma CompletesStatement(cfg: Config, eng: Engine, store: Store, session: Session, req: string,
                           db: string, query: string, json: Json)
    requires store.Valid() && CacheValid(store, session.cache) && db in session.cache
    ensures var file := session.cache[db];
      var (after, scratch, reply) := Execute(eng, store, file, query, json);
      Complete(cfg, eng, store, session, req, Running(db, query, json))
      == (after, session.(cache := session.cache[db := OpenFile(file.id, scratch)]), reply)
  {
    ExecuteGrows(eng, store, session.cache[db], query, json);
  }

  lemma CompletesOpening(cfg: Config, eng: Engine, store: Store, session: Session, req: string,
                         db: string, query: string, json: Json)
    requires store.Valid() && CacheValid(store, session.cache)
    ensures var (grown, handles, failure) := GetHandle(eng, store, session.cache, db);
      && grown.Valid() && CacheValid(grown, handles) && (failure.None? ==> db in handles)
      && Complete(cfg, eng, store, session, req, Opening(db, query, json))
         == if failure.Some? then (grown, session, SqlError(failure.value, json))
            else Complete(cfg, eng, grown, session.(cache := handles), req, Running(db, query, json))
  {
    GetHandleKeepsValid(eng, store, session.cache, db);
  }

  lemma CompletesQuery(cfg: Config, eng: Engine, store: Store, session: Session, req: string,
                       db: string, query: string, json: Json)
    requires store.Valid() && CacheValid(store, session.cache)
    ensures var (after, cache, reply) := Query(eng, store, session.cache, db, query, json);
      Complete(cfg, eng, store, session, req, Opening(db, query, json)) == (after, session.(cache := cache), reply)
  {
    CompletesOpening(cfg, eng, store, session, req, db, query, json);
    GetHandleKeepsValid(eng, store, session.cache, db);
    var (grown, handles, failure) := GetHandle(eng, store, session.cache, db);
    if failure.None? {
      CompletesStatement(cfg, eng, grown, session.(cache := handles), req, db, query, json);
    }
  }

  lemma CompletesDelete(cfg: Config, eng: Engine, store: Store, session: Session, req: string, db: string)
    requires store.Valid() && CacheValid(store, session.cache)
    ensures Complete(cfg, eng, store, session, req, Removing(db))
      == if Removes(eng, store, db) then (Remove(store, db), session.(cache := session.cache - {db}), ResultReply(true))
         else (store, session, ResultReply(false))
  {
    if Removes(eng, store, db) {
      assert Complete(cfg, eng, Remove(store, db), session, req, Forgetting(db))
        == (Remove(store, db), session.(cache := session.cache - {db}), ResultReply(true));
    }
  }

  /** The steps of one request, put together. */
  lemma CompletesHandle(cfg: Config, eng: Engine, store: Store, session: Session, req: string)
    requires store.Valid() && CacheValid(store, session.cache)
    ensures Complete(cfg, eng, store, session, req, Begin) == Handle(cfg, eng, store, session, req)
  {
    var (flag, action) := Gate(cfg, eng, session.authenticated, req);
    var gated := session.(authenticated := flag);
    assert Complete(cfg, eng, store, session, req, Begin) == Complete(cfg, eng, store, gated, req, Plan(action));
    match action
    case DoQuery(db, query, json) => CompletesQuery(cfg, eng, store, gated, req, db, query, json);
    case DoDelete(db) => CompletesDelete(cfg, eng, store, gated, req, db);
    case _ =>
  }

  /** The same connection advanced `n` times. */
  function Advances(c: nat, n: nat): seq<Step> { if n == 0 then [] else [Advance(c)] + Advances(c, n - 1) }

  lemma AdvanceFirst(cfg: Config, eng: Engine, s: State, c: nat, m: nat)
    requires Sound(s) && Enabled(cfg, eng, s, Advance(c))
    ensures Sound(Advanced(cfg, eng, s, c))
    ensures After(cfg, eng, s, Advances(c, m + 1)) == After(cfg, eng, Advanced(cfg, eng, s, c), Advances(c, m))
  {
    AdvancedKeepsSound(cfg, eng, s, c);
    assert Advances(c, m + 1)[1..] == Advances(c, m);
  }

  /** From `s` to `t` connection `c`'s handler has ended with `goal`, and nobody else's connection
      was touched. */
  predicate EndsWith(s: State, t: State, c: nat, goal: (Store, Session, Json)) {
    && c < |t.conns| && |t.conns| == |s.conns|
    && (forall i :: 0 <= i < |s.conns| && i != c ==> t.conns[i] == s.conns[i])
    && t.queue == s.queue && t.free == s.free && t.accepting == s.accepting
    && c < |s.conns| && t.conns[c].line == s.conns[c].line
    && t.conns[c].phase.Executing? && t.conns[c].phase.work.Finished?
    && goal == (t.store, t.conns[c].session, t.conns[c].phase.work.reply)
  }

  lemma EndsLater(cfg: Config, eng: Engine, s: State, t: State, c: nat, goal: (Store, Session, Json))
    requires Sound(s) && Enabled(cfg, eng, s, Advance(c)) && EndsWith(Advanced(cfg, eng, s, c), t, c, goal)
    ensures EndsWith(s, t, c, goal)
  {}

  /** The end a connection's handler is heading for. */
  function Goal(cfg: Config, eng: Engine, s: State, c: nat): (Store, Session, Json)
    requires Sound(s) && c < |s.conns| && s.conns[c].phase.Executing? && ConnSound(s.store, s.conns[c])
  {
    Complete(cfg, eng, s.store, s.conns[c].session, s.conns[c].phase.req, s.conns[c].phase.work)
  }

  lemma GoalKept(cfg: Config, eng: Engine, s: State, c: nat)
    requires Sound(s) && Enabled(cfg, eng, s, Advance(c)) && ConnSound(s.store, s.conns[c])
    ensures var t := Advanced(cfg, eng, s, c);
      && Sound(t) && c < |t.conns| && t.conns[c].phase.Executing? && ConnSound(t.store, t.conns[c])
      && Permits.Rank(t.conns[c].phase.work) < Permits.Rank(s.conns[c].phase.work)
      && Goal(cfg, eng, t, c) == Goal(cfg, eng, s, c)
  {
    var k := s.conns[c];
    Permits.MicroDescends(cfg, eng, s.store, k.session, k.phase.req, k.phase.work);
    AdvancedKeepsSound(cfg, eng, s, c);
  }

  /** `n` steps of connection `c` alone end its handler with `goal`. */
  ghost predicate Reaches(cfg: Config, eng: Engine, s: State, c: nat, n: nat, goal: (Store, Session, Json))
    requires Sound(s)
  {
    var last := After(cfg, eng, s, Advances(c, n));
    last.Some? && EndsWith(s, last.value, c, goal)
  }

  lemma EndsHere(cfg: Config, eng: Engine, s: State, c: nat)
    requires Sound(s) && c < |s.conns| && s.conns[c].phase.Executing? && ConnSound(s.store, s.conns[c])
    requires s.conns[c].phase.work.Finished?
    ensures Reaches(cfg, eng, s, c, 0, Goal(cfg, eng, s, c))
  {}

  /** One more step in front of a run that ends. */
  lemma EndsLaterStill(cfg: Config, eng: Engine, s: State, c: nat, m: nat, goal: (Store, Session, Json))
    requires Sound(s) && Enabled(cfg, eng, s, Advance(c)) && Sound(Advanced(cfg, eng, s, c))
    requires Reaches(cfg, eng, Advanced(cfg, eng, s, c), c, m, goal)
    ensures Reaches(cfg, eng, s, c, m + 1, goal)
  {
    AdvanceFirst(cfg, eng, s, c, m);
    EndsLater(cfg, eng, s, After(cfg, eng, s, Advances(c, m + 1)).value, c, goal);
  }

  /** A connection's handler is on its way to `goal`, at most `rank` steps from its return. */
  ghost predicate Heads(cfg: Config, eng: Engine, s: State, c: nat, rank: nat, goal: (Store, Session, Json)) {
    && Sound(s) && c < |s.conns| && s.conns[c].phase.Executing? && ConnSound(s.store, s.conns[c])
    && rank == Permits.Rank(s.conns[c].phase.work) && goal == Goal(cfg, eng, s, c)
  }

  lemma HeadsOn(cfg: Config, eng: Engine, s: State, c: nat, rank: nat, goal: (Store, Session, Json))
    returns (t: State, left: nat)
    requires Heads(cfg, eng, s, c, rank, goal) && !s.conns[c].phase.work.Finished?
    ensures Enabled(cfg, eng, s, Advance(c)) && t == Advanced(cfg, eng, s, c)
    ensures Heads(cfg, eng, t, c, left, goal) && left < rank
  {
    GoalKept(cfg, eng, s, c);
    t := Advanced(cfg, eng, s, c);
    left := Permits.Rank(t.conns[c].phase.work);
  }

  /** In the server, a handler left alone reaches its reply in fewer steps than its rank, with the
      folder and session as completed, and nobody else's connection touched. */
  lemma {:induction false} RunsToCompletion(cfg: Config, eng: Engine, s: State, c: nat, rank: nat,
                                            goal: (Store, Session, Json)) returns (n: nat)
    requires Heads(cfg, eng, s, c, rank, goal)
    ensures n < rank && Reaches(cfg, eng, s, c, n, goal)
    decreases rank
  {
    if s.conns[c].phase.work.Finished? {
      n := 0;
      EndsHere(cfg, eng, s, c);
    } else {
      var t, left := HeadsOn(cfg, eng, s, c, rank, goal);
      var m := RunsToCompletion(cfg, eng, t, c, left, goal);
      n := m + 1;
      EndsLaterStill(cfg, eng, s, c, m, goal);
    }
  }

  /** A request served while nobody else acts is exactly the request handler. */
  lemma ServesLikeTheHandler(cfg: Config, eng: Engine, s: State, c: nat) returns (n: nat)
    requires Sound(s) && c < |s.conns| && s.conns[c].phase.Executing? && s.conns[c].phase.work.Begin?
    ensures ConnSound(s.store, s.conns[c]) && After(cfg, eng, s, Advances(c, n)).Some?
    ensures EndsWith(s, After(cfg, eng, s, Advances(c, n)).value, c,
                     Handle(cfg, eng, s.store, s.conns[c].session, s.conns[c].phase.req))
  {
    assert ConnSound(s.store, s.conns[c]);
    n := RunsToCompletion(cfg, eng, s, c, Permits.Rank(Begin), Goal(cfg, eng, s, c));
    CompletesHandle(cfg, eng, s.store, s.conns[c].session, s.conns[c].phase.req);
  }

  // -------------------------------------------------------------------------
  // One frame, from its first byte to the reply's last
  // -------------------------------------------------------------------------

  /** Connection `c` is about to read with a permit free. */
  ghost predicate Ready(s: State, c: nat) {
    Sound(s) && c < |s.conns| && s.conns[c].phase.Reading? && ConnSound(s.store, s.conns[c]) && s.free > 0 && s.queue == []
  }

  /** What serving one request alone makes of the state. */
  ghost predicate ServedAs(eng: Engine, s: State, t: State, c: nat, rest: seq<Octet>, goal: (Store, Session, Json)) {
    && c < |s.conns| && Ready(t, c) && |t.conns| == |s.conns| && t.free == s.free
    && (forall i :: 0 <= i < |s.conns| && i != c ==> t.conns[i] == s.conns[i])
    && t.store == goal.0 && t.conns[c].session == goal.1
    && t.conns[c].line.unread == rest
    && t.conns[c].line.answered == s.conns[c].line.answered + [goal.2]
    && t.conns[c].line.sent == s.conns[c].line.sent + Frame(eng.encode(goal.2))
  }

  lemma ReadsFrame(cfg: Config, eng: Engine, s: State, c: nat, body: seq<Octet>, rest: seq<Octet>)
    requires Ready(s, c) && s.conns[c].line.unread == Frame(body) + rest && |body| <= cfg.maxPacket
    ensures Enabled(cfg, eng, s, Receive(c))
    ensures var t := Received(cfg, eng, s, c);
      && Sound(t) && t.store == s.store && t.queue == [] && t.free == s.free - 1 && |t.conns| == |s.conns|
      && (forall i :: 0 <= i < |s.conns| && i != c ==> t.conns[i] == s.conns[i])
      && t.conns[c].session == s.conns[c].session && t.conns[c].phase == Executing(eng.decode(body), Begin)
      && t.conns[c].line == s.conns[c].line.(unread := rest, taken := s.conns[c].line.taken + [body])
  {
    FrameHeader(body, rest);
    var unread := s.conns[c].line.unread;
    assert unread[4..4 + |body|] == body && unread[4 + |body|..] == rest;
    ReceivedKeepsSound(cfg, eng, s, c);
  }

  lemma SendsAll(cfg: Config, eng: Engine, s: State, c: nat)
    requires Sound(s) && c < |s.conns| && s.conns[c].phase.Writing?
    ensures var k := s.conns[c];
      var line := k.line.(sent := k.line.sent + k.phase.left, answered := k.line.answered + [k.phase.reply]);
      var t := s.(conns := s.conns[c := k.(line := line, phase := Reading)]);
      After(cfg, eng, s, [Send(c, |k.phase.left|), Wrote(c)]) == Some(t) && Sound(t)
  {
    var n := |s.conns[c].phase.left|;
    assert s.conns[c].phase.left[..n] == s.conns[c].phase.left && s.conns[c].phase.left[n..] == [];
    var sent := Sent(s.conns[c], n);
    assert s.conns[c := sent][c := Answered(sent)] == s.conns[c := Answered(sent)];
    ApplyKeepsSound(cfg, eng, s, Send(c, n));
    ApplyKeepsSound(cfg, eng, Apply(cfg, eng, s, Send(c, n)), Wrote(c));
    AfterTwo(cfg, eng, s, Send(c, n), Wrote(c));
  }

  lemma Returns(cfg: Config, eng: Engine, s: State, c: nat)
    requires Sound(s) && Enabled(cfg, eng, s, Release(c)) && s.queue == []
    ensures var t := Released(cfg, eng, s, c);
      && Sound(t) && t == s.(conns := s.conns[c := Returned(eng, s.conns[c])], free := s.free + 1)
  {
    ReleasedKeepsSound(cfg, eng, s, c);
  }

  /** The steps that return from a handler and send its reply. */
  function Reply(eng: Engine, k: Conn, c: nat): seq<Step>
    requires k.phase.Executing? && k.phase.work.Finished?
  {
    [Release(c)] + [Send(c, |Frame(eng.encode(k.phase.work.reply))|), Wrote(c)]
  }

  lemma WritesReply(cfg: Config, eng: Engine, s: State, c: nat)
    requires Sound(s) && Enabled(cfg, eng, s, Release(c)) && s.queue == []
    ensures var reply := s.conns[c].phase.work.reply;
      var end := After(cfg, eng, s, Reply(eng, s.conns[c], c));
      && end.Some?
      && var u := end.value;
      && Ready(u, c) && u.free == s.free + 1 && u.store == s.store && |u.conns| == |s.conns|
      && (forall i :: 0 <= i < |s.conns| && i != c ==> u.conns[i] == s.conns[i])
      && u.conns[c].session == s.conns[c].session && u.conns[c].line.unread == s.conns[c].line.unread
      && u.conns[c].line.answered == s.conns[c].line.answered + [reply]
      && u.conns[c].line.sent == s.conns[c].line.sent + Frame(eng.encode(reply))
  {
    Returns(cfg, eng, s, c);
    var t := Released(cfg, eng, s, c);
    SendsAll(cfg, eng, t, c);
    assert Reply(eng, s.conns[c], c)[1..] == [Send(c, |t.conns[c].phase.left|), Wrote(c)];
    assert ConnSound(s.store, s.conns[c]);
  }

  /** A frame that arrives while nobody else acts is read, handled and answered as the request
      handler says, and the connection is ready for the next. */
  lemma ServesOneFrame(cfg: Config, eng: Engine, s: State, c: nat, body: seq<Octet>, rest: seq<Octet>)
    returns (steps: seq<Step>)
    requires Ready(s, c) && s.conns[c].line.unread == Frame(body) + rest && |body| <= cfg.maxPacket
    ensures After(cfg, eng, s, steps).Some?
    ensures ServedAs(eng, s, After(cfg, eng, s, steps).value, c, rest,
                     Handle(cfg, eng, s.store, s.conns[c].session, eng.decode(body)))
  {
    ReadsFrame(cfg, eng, s, c, body, rest);
    var t := Received(cfg, eng, s, c);
    var n := ServesLikeTheHandler(cfg, eng, t, c);
    var u := After(cfg, eng, t, Advances(c, n)).value;
    System.AfterIsSound(cfg, eng, t, Advances(c, n));
    WritesReply(cfg, eng, u, c);
    steps := [Receive(c)] + (Advances(c, n) + Reply(eng, u.conns[c], c));
    AfterThree(cfg, eng, s, Receive(c), Advances(c, n), Reply(eng, u.conns[c], c));
  }

  lemma AfterThree(cfg: Config, eng: Engine, s: State, first: Step, middle: seq<Step>, last: seq<Step>)
    requires Sound(s) && Enabled(cfg, eng, s, first) && Sound(Apply(cfg, eng, s, first))
    requires After(cfg, eng, Apply(cfg, eng, s, first), middle).Some?
    requires Sound(After(cfg, eng, Apply(cfg, eng, s, first), middle).value)
    ensures After(cfg, eng, s, [first] + (middle + last))
      == After(cfg, eng, After(cfg, eng, Apply(cfg, eng, s, first), middle).value, last)
  {
    AfterConcat(cfg, eng, Apply(cfg, eng, s, first), middle, last);
    assert ([first] + (middle + last))[1..] == middle + last;
  }
}
