/** From a client's calls to what the server does, whatever other connections do in between: the
    texts, the frames, the reader, the gate and the binding put together. */
module EndToEnd {
  import opened Basics
  import opened JsonValue
  import opened HandlerSpec
  import opened Framing
  import opened System
  import opened Client
  import Gating
  import Replies
  import Names
  import Service
  import SqlLexer
  import SqlMeaning
  import Uninterrupted

  /** Frames whose bodies decode to the texts of the calls. */
  predicate Carried(eng: Engine, calls: seq<Call>, language: Language, bodies: seq<seq<Octet>>) {
    && |bodies| == |calls|
    && forall i :: 0 <= i < |calls| ==> |bodies[i]| < U32_LIMIT && eng.decode(bodies[i]) == Text(calls[i], language)
  }

  lemma FramesComeFirst(taken: seq<seq<Octet>>, rest: seq<Octet>, bodies: seq<seq<Octet>>)
    requires Frames(bodies) == Frames(taken) + rest
    requires forall i :: 0 <= i < |taken| ==> |taken[i]| < U32_LIMIT
    requires forall i :: 0 <= i < |bodies| ==> |bodies[i]| < U32_LIMIT
    ensures taken <= bodies
  {
    RepliesAreRead(bodies);
    RequestsAfterFrames(taken, rest, U32_LIMIT - 1);
    assert bodies == taken + Requests(rest, U32_LIMIT - 1);
  }

  lemma PrefixSplits<T>(a: seq<T>, b: seq<T>, whole: seq<T>)
    requires a + b <= whole
    ensures whole == a + (b + whole[|a + b|..])
  {}

  /** The requests begun are the texts of the first calls. */
  lemma BegunAreCalls(cfg: Config, eng: Engine, k: Conn, calls: seq<Call>, language: Language,
                      bodies: seq<seq<Octet>>)
    requires Service.InputFramed(cfg, eng, k) && Carried(eng, calls, language, bodies)
    requires k.line.received <= Frames(bodies)
    ensures |k.seen| <= |calls| && forall i :: 0 <= i < |k.seen| ==> k.seen[i] == Text(calls[i], language)
  {
    PrefixSplits(Frames(k.line.taken), k.line.unread, Frames(bodies));
    FramesComeFirst(k.line.taken, k.line.unread + Frames(bodies)[|k.line.received|..], bodies);
    var begun := Service.Begun(k);
    assert forall i :: 0 <= i < |k.seen| ==> k.seen[i] == begun[i];
  }

  /** What was done was asked for by the call. */
  predicate AsksFor(call: Call, deed: Deed) {
    match deed
    case Opened(db, _) => call.Query? && call.db == db
    case Refused(db, _) => call.Query? && call.db == db
    case Ran(db, _, query, _) => call.Query? && call.db == db && query == Statement(call)
    case Listed(_) => call.List?
    case Deleted(name) => call == Delete(name)
    case Kept(name) => call == Delete(name)
  }

  lemma AskedAllows(call: Call, req: string, deed: Deed)
    requires Gating.Allows(Asked(call, req), deed)
    ensures AsksFor(call, deed)
  {}

  lemma AllowedIsAsked(cfg: Config, eng: Engine, number: string -> Json, flag: bool, call: Call, language: Language,
                       deed: Deed)
    requires Reads(eng, number) && Gating.Allows(Gate(cfg, eng, flag, Text(call, language)).1, deed)
    ensures AsksFor(call, deed) && !Unlocks(cfg, call) && (cfg.auth != "" ==> flag)
  {
    var req := Text(call, language);
    CallIsGated(cfg, eng, number, flag, call, language);
    NothingElse(deed);
    AskedAllows(call, req, deed);
  }

  lemma NothingElse(deed: Deed)
    ensures forall reply :: !Gating.Allows(Answer(reply), deed)
  {}

  /** The `nth` call asked for the deed, and a call before it logged in if need be. */
  ghost predicate Justified(cfg: Config, calls: seq<Call>, nth: nat, deed: Deed) {
    && 1 <= nth <= |calls| && AsksFor(calls[nth - 1], deed)
    && (cfg.auth != "" ==> exists i :: 0 <= i < nth - 1 && Unlocks(cfg, calls[i]))
  }

  lemma KnowsByCall(cfg: Config, eng: Engine, number: string -> Json, before: seq<string>, calls: seq<Call>,
                    language: Language)
    requires Reads(eng, number) && Gating.Knows(cfg, eng, before) && |before| <= |calls|
    requires forall i :: 0 <= i < |before| ==> before[i] == Text(calls[i], language)
    ensures exists i :: 0 <= i < |before| && Unlocks(cfg, calls[i])
  {
    var i :| 0 <= i < |before| && CarriesPassword(cfg, eng, before[i]);
    CallIsGated(cfg, eng, number, false, calls[i], language);
    assert Unlocks(cfg, calls[i]);
  }

  lemma EventIsJustified(cfg: Config, eng: Engine, number: string -> Json, seen: seq<string>, calls: seq<Call>,
                         language: Language, e: Event)
    requires Reads(eng, number) && Gating.EventGated(cfg, eng, seen, e) && |seen| <= |calls|
    requires forall i :: 0 <= i < |seen| ==> seen[i] == Text(calls[i], language)
    ensures Justified(cfg, calls, e.nth, e.deed)
  {
    var before, call := seen[..e.nth - 1], calls[e.nth - 1];
    AllowedIsAsked(cfg, eng, number, Gating.Knows(cfg, eng, before), call, language, e.deed);
    if cfg.auth != "" {
      KnowsByCall(cfg, eng, number, before, calls, language);
    }
  }

  /** A client whose bytes are the frames of its calls, as far as they have arrived: in every
      reachable state, whatever the server did to the folder on its connection is what one of those
      calls asked for, after a successful login if a password is set. Every statement that ran is
      the template of a query with its parameters bound. */
  lemma OnlyWhatWasAsked(cfg: Config, eng: Engine, number: string -> Json, store: Store, steps: seq<Step>, c: nat,
                         calls: seq<Call>, language: Language, bodies: seq<seq<Octet>>)
    requires store.Valid() && After(cfg, eng, Initial(cfg, store), steps).Some? && Reads(eng, number)
    requires c < |After(cfg, eng, Initial(cfg, store), steps).value.conns|
    requires Carried(eng, calls, language, bodies)
    requires After(cfg, eng, Initial(cfg, store), steps).value.conns[c].line.received <= Frames(bodies)
    ensures var s := After(cfg, eng, Initial(cfg, store), steps).value;
      forall i :: 0 <= i < |s.log| && s.log[i].conn == c ==> Justified(cfg, calls, s.log[i].nth, s.log[i].deed)
  {
    Service.RunStaysFramed(cfg, eng, Initial(cfg, store), steps);
    Gating.RunStaysGated(cfg, eng, Initial(cfg, store), steps);
    var s := After(cfg, eng, Initial(cfg, store), steps).value;
    BegunAreCalls(cfg, eng, s.conns[c], calls, language, bodies);
    forall i | 0 <= i < |s.log| && s.log[i].conn == c
      ensures Justified(cfg, calls, s.log[i].nth, s.log[i].deed)
    {
      EventIsJustified(cfg, eng, number, s.conns[c].seen, calls, language, s.log[i]);
    }
  }

  /** And if the template is safe, the statement has the template's tokens, with each bound
      placeholder replaced by the tokens of its value. */
  lemma StatementKeepsMeaning(call: Call)
    requires call.Query? && |call.params| < USIZE_LIMIT
    requires SqlMeaning.Safe(call.sql, |call.params|) && SqlMeaning.AllNulFree(call.params)
    ensures SqlLexer.Tokenize(Statement(call)) == SqlMeaning.Subst(SqlLexer.Tokenize(call.sql), call.params, 0)
  {
    SqlMeaning.BindingPreservesMeaning(call.sql, call.params);
  }

  /** A call whose frame arrives while nobody else acts is done and answered by one frame: a login
      succeeds exactly with the password, a deletion exactly if the entry is gone, a list has the
      entries, and a query the outcome of its bound statement. */
  lemma CallIsServed(cfg: Config, eng: Engine, number: string -> Json, s: State, c: nat, body: seq<Octet>,
                     rest: seq<Octet>, call: Call, language: Language)
    returns (steps: seq<Step>, reply: Json)
    requires Reads(eng, number) && eng.decode(body) == Text(call, language)
    requires Uninterrupted.Ready(s, c) && s.conns[c].line.unread == Frame(body) + rest && |body| <= cfg.maxPacket
    ensures After(cfg, eng, s, steps).Some?
    ensures var end := After(cfg, eng, s, steps).value;
      && c < |end.conns|
      && Uninterrupted.ServedAs(eng, s, end, c, rest, (end.store, end.conns[c].session, reply))
      && Replies.CallDone(cfg, eng, s.store, s.conns[c].session, call, end.store, end.conns[c].session, reply)
  {
    var session := s.conns[c].session;
    Replies.CallIsDone(cfg, eng, number, s.store, session, call, language);
    reply := Handle(cfg, eng, s.store, session, Text(call, language)).2;
    steps := Uninterrupted.ServesOneFrame(cfg, eng, s, c, body, rest);
  }

  /** In particular a permitted query on an accepted name is answered with the outcome that the engine
      gives its bound statement on the handle of that name: every cell of the result set, or the
      code and message of the error. */
  lemma QueryIsServed(cfg: Config, eng: Engine, number: string -> Json, s: State, c: nat, body: seq<Octet>,
                      rest: seq<Octet>, call: Call, language: Language)
    returns (steps: seq<Step>, reply: Json)
    requires Reads(eng, number) && call.Query? && Names.IsSafe(call.db) && !IsBlankText(Statement(call))
    requires Uninterrupted.Ready(s, c) && s.conns[c].line.unread == Frame(body) + rest && |body| <= cfg.maxPacket
    requires eng.decode(body) == Text(call, language) && (cfg.auth != "" ==> s.conns[c].session.authenticated)
    ensures After(cfg, eng, s, steps).Some?
    ensures var end := After(cfg, eng, s, steps).value;
      && c < |end.conns|
      && Uninterrupted.ServedAs(eng, s, end, c, rest, (end.store, end.conns[c].session, reply))
      && Replies.QueryDone(eng, s.store, s.conns[c].session, call, end.store, end.conns[c].session, reply)
  {
    steps, reply := CallIsServed(cfg, eng, number, s, c, body, rest, call, language);
  }
}
