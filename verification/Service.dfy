/** Exact framing in every run of the server: whatever the interleaving and however bytes arrive,
    each connection's requests are the complete in-limit frames of its stream, in order, and its
    output is the frames of one reply for each finished request, in order. */
module Service {
  import opened Basics
  import opened JsonValue
  import opened HandlerSpec
  import opened Framing
  import opened Wire
  import opened System
  import Gating
  import Replies

  // -------------------------------------------------------------------------
  // One connection
  // -------------------------------------------------------------------------

  /** The requests read so far: those the handler has started on, and the one that waits. */
  function Begun(k: Conn): seq<string> {
    match k.phase
    case Waiting(req) => k.seen + [req]
    case Executing(req, Begin) => k.seen + [req]
    case _ => k.seen
  }

  /** Requests read whose reply is not out. */
  function Due(phase: Phase): nat {
    match phase
    case Reading => 0
    case Closed(_) => 0
    case _ => 1
  }

  ghost predicate InputFramed(cfg: Config, eng: Engine, k: Conn) {
    && k.line.received == Frames(k.line.taken) + k.line.unread
    && (forall i :: 0 <= i < |k.line.taken| ==> |k.line.taken[i]| <= cfg.maxPacket)
    && Begun(k) == Decoded(eng, k.line.taken)
    && (k.phase == Closed(true) ==>
          Stuck(k.line.unread, cfg.maxPacket) && (k.line.ended || OverLimit(cfg, k.line.unread)))
  }

  ghost predicate OutputFramed(eng: Engine, k: Conn) {
    && |k.line.answered| + Due(k.phase) == |Begun(k)|
    && (if OnTheWire(k.phase) then
          var whole := Frames(Encoded(eng, k.line.answered));
          whole <= k.line.sent <= whole + Frame(eng.encode(k.phase.reply))
        else k.line.sent == Frames(Encoded(eng, k.line.answered)))
    && (k.phase.Writing? ==>
          k.line.sent + k.phase.left == Frames(Encoded(eng, k.line.answered)) + Frame(eng.encode(k.phase.reply)))
  }

  /** Part of a reply's frame may have been sent. */
  predicate OnTheWire(phase: Phase) { phase.Writing? || phase.Broken? }

  // -------------------------------------------------------------------------
  // Steps on the streams
  // -------------------------------------------------------------------------

  lemma DeliverFramed(cfg: Config, eng: Engine, k: Conn, bytes: seq<Octet>)
    requires InputFramed(cfg, eng, k) && !k.line.ended
    ensures InputFramed(cfg, eng, System.Delivered(k, bytes))
  {
    Regroup(Frames(k.line.taken), k.line.unread, bytes);
    if OverLimit(cfg, k.line.unread) {
      assert (k.line.unread + bytes)[..4] == k.line.unread[..4];
    }
  }

  lemma DecodedSnoc(eng: Engine, bodies: seq<seq<Octet>>, body: seq<Octet>)
    ensures Decoded(eng, bodies + [body]) == Decoded(eng, bodies) + [eng.decode(body)]
  {}

  lemma ReadFramed(line: Line)
    requires |line.unread| >= 4 && |line.unread| >= 4 + HeaderValue(line.unread[..4])
    requires line.received == Frames(line.taken) + line.unread
    ensures var line' := System.Read(line); line'.received == Frames(line'.taken) + line'.unread
  {
    var n := HeaderValue(line.unread[..4]);
    var body, rest := line.unread[4..4 + n], line.unread[4 + n..];
    FrontFrame(line.unread);
    FramesSnoc(line.taken, body);
    Regroup(Frames(line.taken), Frame(body), rest);
  }

  /** A request is read: it joins the requests, whether its handler starts or it waits. */
  lemma ReceiveFramed(cfg: Config, eng: Engine, k: Conn, k': Conn)
    requires InputFramed(cfg, eng, k) && OutputFramed(eng, k)
    requires k.phase.Reading? && !Stuck(k.line.unread, cfg.maxPacket)
    requires k'.line == System.Read(k.line) && k'.seen == k.seen
    requires var req := eng.decode(k'.line.taken[|k'.line.taken| - 1]);
      k'.phase == Waiting(req) || k'.phase == Executing(req, Begin)
    ensures InputFramed(cfg, eng, k') && OutputFramed(eng, k')
  {
    ReadFramed(k.line);
    var n := HeaderValue(k.line.unread[..4]);
    DecodedSnoc(eng, k.line.taken, k.line.unread[4..4 + n]);
  }

  lemma SendFramed(eng: Engine, k: Conn, n: nat)
    requires OutputFramed(eng, k) && k.phase.Writing? && n <= |k.phase.left|
    ensures OutputFramed(eng, Sent(k, n))
  {
    var sent, left := k.line.sent, k.phase.left;
    SplitAt(left, n);
    Regroup(sent, left[..n], left[n..]);
    assert sent + left[..n] <= (sent + left[..n]) + left[n..];
  }

  lemma AnswerFramed(eng: Engine, k: Conn)
    requires OutputFramed(eng, k) && k.phase.Writing? && k.phase.left == []
    ensures OutputFramed(eng, Answered(k))
  {
    EncodedSnoc(eng, k.line.answered, k.phase.reply);
    assert k.line.sent + [] == k.line.sent;
  }

  // -------------------------------------------------------------------------
  // Every step
  // -------------------------------------------------------------------------

  ghost predicate Framed(cfg: Config, eng: Engine, s: State) {
    forall c :: 0 <= c < |s.conns| ==> InputFramed(cfg, eng, s.conns[c]) && OutputFramed(eng, s.conns[c])
  }

  lemma OneFramed(cfg: Config, eng: Engine, s: State, s': State, c: nat)
    requires Framed(cfg, eng, s) && c < |s.conns| == |s'.conns| && s'.conns == s.conns[c := s'.conns[c]]
    requires InputFramed(cfg, eng, s'.conns[c]) && OutputFramed(eng, s'.conns[c])
    ensures Framed(cfg, eng, s')
  {}

  lemma IdleConnFramed(cfg: Config, eng: Engine, k: Conn, step: Step)
    requires InputFramed(cfg, eng, k) && OutputFramed(eng, k) && IsIdle(step) && CanIdle(cfg, k, step)
    ensures InputFramed(cfg, eng, Idled(cfg, k, step)) && OutputFramed(eng, Idled(cfg, k, step))
  {
    match step
    case Deliver(_, bytes) => DeliverFramed(cfg, eng, k, bytes);
    case Send(_, n) => SendFramed(eng, k, n);
    case Wrote(_) => AnswerFramed(eng, k);
    case _ =>
  }

  lemma IdleStaysFramed(cfg: Config, eng: Engine, s: State, step: Step)
    requires Sound(s) && Framed(cfg, eng, s) && Enabled(cfg, eng, s, step) && IsIdle(step)
    ensures Framed(cfg, eng, Apply(cfg, eng, s, step))
  {
    IdleStep(cfg, eng, s, step);
    IdleConnFramed(cfg, eng, s.conns[step.conn], step);
    OneFramed(cfg, eng, s, Apply(cfg, eng, s, step), step.conn);
  }

  lemma ReceiveStaysFramed(cfg: Config, eng: Engine, s: State, c: nat)
    requires Sound(s) && Framed(cfg, eng, s) && Enabled(cfg, eng, s, Receive(c))
    ensures Framed(cfg, eng, Received(cfg, eng, s, c))
  {
    ReceiveFramed(cfg, eng, s.conns[c], Received(cfg, eng, s, c).conns[c]);
    OneFramed(cfg, eng, s, Received(cfg, eng, s, c), c);
  }

  lemma AdvanceFramed(cfg: Config, eng: Engine, k: Conn, k': Conn)
    requires InputFramed(cfg, eng, k) && OutputFramed(eng, k) && k.phase.Executing? && k'.phase.Executing?
    requires k'.line == k.line && k'.phase.req == k.phase.req && !k'.phase.work.Begin?
    requires k'.seen == if k.phase.work.Begin? then k.seen + [k.phase.req] else k.seen
    ensures InputFramed(cfg, eng, k') && OutputFramed(eng, k')
  {
    assert Begun(k') == Begun(k) && Due(k'.phase) == Due(k.phase);
  }

  lemma AdvanceStaysFramed(cfg: Config, eng: Engine, s: State, c: nat)
    requires Sound(s) && Framed(cfg, eng, s) && Enabled(cfg, eng, s, Advance(c))
    ensures Framed(cfg, eng, Advanced(cfg, eng, s, c))
  {
    var k, k' := s.conns[c], Advanced(cfg, eng, s, c).conns[c];
    AdvanceFramed(cfg, eng, k, k');
    OneFramed(cfg, eng, s, Advanced(cfg, eng, s, c), c);
  }

  lemma ReturnFramed(cfg: Config, eng: Engine, k: Conn)
    requires InputFramed(cfg, eng, k) && OutputFramed(eng, k) && k.phase.Executing? && k.phase.work.Finished?
    ensures InputFramed(cfg, eng, Returned(eng, k)) && OutputFramed(eng, Returned(eng, k))
  {}

  lemma StartFramed(cfg: Config, eng: Engine, k: Conn)
    requires InputFramed(cfg, eng, k) && OutputFramed(eng, k) && k.phase.Waiting?
    ensures InputFramed(cfg, eng, Started(k, k.phase.req)) && OutputFramed(eng, Started(k, k.phase.req))
  {}

  lemma ReleaseStaysFramed(cfg: Config, eng: Engine, s: State, c: nat)
    requires Sound(s) && Framed(cfg, eng, s) && Enabled(cfg, eng, s, Release(c))
    ensures Framed(cfg, eng, Released(cfg, eng, s, c))
  {
    ReturnFramed(cfg, eng, s.conns[c]);
    if s.queue != [] {
      StartFramed(cfg, eng, s.conns[s.queue[0]]);
    }
  }

  lemma AcceptStaysFramed(cfg: Config, eng: Engine, s: State, k: Conn)
    requires Framed(cfg, eng, s) && k == NewConn(k.peer)
    ensures Framed(cfg, eng, s.(conns := s.conns + [k]))
  {}

  lemma StepStaysFramed(cfg: Config, eng: Engine, s: State, step: Step)
    requires Sound(s) && Framed(cfg, eng, s) && Enabled(cfg, eng, s, step)
    ensures Framed(cfg, eng, Apply(cfg, eng, s, step))
  {
    if IsIdle(step) {
      IdleStaysFramed(cfg, eng, s, step);
    } else {
      match step
      case Receive(c) => ReceiveStaysFramed(cfg, eng, s, c);
      case Advance(c) => AdvanceStaysFramed(cfg, eng, s, c);
      case Release(c) => ReleaseStaysFramed(cfg, eng, s, c);
      case Accept(peer) => AcceptStaysFramed(cfg, eng, s, NewConn(peer));
      case _ =>
    }
  }

  lemma {:induction false} RunStaysFramed(cfg: Config, eng: Engine, s: State, steps: seq<Step>)
    requires Sound(s) && Framed(cfg, eng, s) && After(cfg, eng, s, steps).Some?
    ensures Framed(cfg, eng, After(cfg, eng, s, steps).value)
    decreases |steps|
  {
    if steps != [] {
      ApplyKeepsSound(cfg, eng, s, steps[0]);
      StepStaysFramed(cfg, eng, s, steps[0]);
      RunStaysFramed(cfg, eng, Apply(cfg, eng, s, steps[0]), steps[1..]);
    }
  }

  // -------------------------------------------------------------------------
  // Every reply tells what was done for its request
  // -------------------------------------------------------------------------

  /** The history of connection `c` on its `nth` request, which was let do `action`, accounts for the
      reply: the statement that ran with its outcome, the opening that failed, the names listed, the
      entry that was deleted or kept. */
  ghost predicate Fits(log: seq<Event>, c: nat, nth: nat, action: Action, reply: Json) {
    match action
    case Answer(answer) => reply == answer
    case DoQuery(db, query, json) => TellsQuery(log, c, nth, db, query, json, reply)
    case DoList =>
      exists names: seq<string> :: Event(c, nth, Listed(names)) in log
        && Replies.PicksOut(names, Replies.Places(names), Replies.ListOf(reply))
    case DoDelete(db) => Event(c, nth, if Replies.Succeeds(reply) then Deleted(db) else Kept(db)) in log
  }

  ghost predicate TellsQuery(log: seq<Event>, c: nat, nth: nat, db: string, query: string, json: Json, reply: Json) {
    || (exists id: nat, outcome: Outcome :: Event(c, nth, Ran(db, id, query, outcome)) in log
          && Replies.Tells(reply, outcome, json))
    || (exists error: (int, string) :: Event(c, nth, Refused(db, error)) in log
          && Replies.IsSqlError(reply, error.0, error.1, json))
  }

  lemma FitsGrows(log: seq<Event>, more: seq<Event>, c: nat, nth: nat, action: Action, reply: Json)
    requires Fits(log, c, nth, action, reply)
    ensures Fits(log + more, c, nth, action, reply)
  {
    match action
    case DoQuery(db, query, json) => TellsGrows(log, more, c, nth, db, query, json, reply);
    case DoList =>
      var names: seq<string> :| Event(c, nth, Listed(names)) in log
        && Replies.PicksOut(names, Replies.Places(names), Replies.ListOf(reply));
      assert Event(c, nth, Listed(names)) in log + more;
    case _ =>
  }

  lemma TellsGrows(log: seq<Event>, more: seq<Event>, c: nat, nth: nat, db: string, query: string, json: Json,
                   reply: Json)
    requires TellsQuery(log, c, nth, db, query, json, reply)
    ensures TellsQuery(log + more, c, nth, db, query, json, reply)
  {
    if id: nat, outcome: Outcome :| Event(c, nth, Ran(db, id, query, outcome)) in log
                                    && Replies.Tells(reply, outcome, json) {
      assert Event(c, nth, Ran(db, id, query, outcome)) in log + more;
    } else {
      var error: (int, string) :| Event(c, nth, Refused(db, error)) in log
        && Replies.IsSqlError(reply, error.0, error.1, json);
      assert Event(c, nth, Refused(db, error)) in log + more;
    }
  }

  /** The reply on its way out, if there is one. */
  function Outgoing(phase: Phase): Option<Json> {
    match phase
    case Executing(_, Finished(reply)) => Some(reply)
    case Writing(reply, _) => Some(reply)
    case Broken(reply) => Some(reply)
    case _ => None
  }

  /** A handler about to forget a name has deleted it. */
  predicate HasDeleted(log: seq<Event>, c: nat, nth: nat, work: Work) {
    work.Forgetting? ==> Event(c, nth, Deleted(work.db)) in log
  }

  /** The replies written answer the requests in order, and the one on its way out the last. */
  ghost predicate ConnFits(cfg: Config, eng: Engine, log: seq<Event>, c: nat, k: Conn) {
    && |k.line.answered| <= |k.seen|
    && (forall i :: 0 <= i < |k.line.answered| ==>
          Fits(log, c, i + 1, Gating.NthVerdict(cfg, eng, k.seen, i + 1), k.line.answered[i]))
    && (Outgoing(k.phase).Some? ==>
          |k.seen| > 0 && Fits(log, c, |k.seen|, Gating.NthVerdict(cfg, eng, k.seen, |k.seen|), Outgoing(k.phase).value))
    && (k.phase.Executing? ==> HasDeleted(log, c, |k.seen|, k.phase.work))
  }

  ghost predicate Fitting(cfg: Config, eng: Engine, s: State) {
    forall c :: 0 <= c < |s.conns| ==> ConnFits(cfg, eng, s.log, c, s.conns[c])
  }

  lemma ConnFitsGrows(cfg: Config, eng: Engine, log: seq<Event>, more: seq<Event>, c: nat, k: Conn)
    requires ConnFits(cfg, eng, log, c, k)
    ensures ConnFits(cfg, eng, log + more, c, k)
  {
    forall i | 0 <= i < |k.line.answered|
      ensures Fits(log + more, c, i + 1, Gating.NthVerdict(cfg, eng, k.seen, i + 1), k.line.answered[i])
    {
      FitsGrows(log, more, c, i + 1, Gating.NthVerdict(cfg, eng, k.seen, i + 1), k.line.answered[i]);
    }
    if Outgoing(k.phase).Some? {
      FitsGrows(log, more, c, |k.seen|, Gating.NthVerdict(cfg, eng, k.seen, |k.seen|), Outgoing(k.phase).value);
    }
  }

  /** What a handler's step did accounts for the reply it ends with, and for a deletion. */
  lemma MicroFits(cfg: Config, eng: Engine, store: Store, session: Session, req: string, work: Work, action: Action,
                  log: seq<Event>, c: nat, nth: nat)
    requires store.Valid() && CacheValid(store, session.cache) && WorkValid(session, work) && !work.Finished?
    requires if work.Begin? then action == Gate(cfg, eng, session.authenticated, req).1
      else Gating.Carries(action, work)
    requires HasDeleted(log, c, nth, work)
    ensures var e := Micro(cfg, eng, store, session, req, work);
      var now := log + Events(c, nth, e.deeds);
      && (e.work.Finished? ==> Fits(now, c, nth, action, e.work.reply))
      && HasDeleted(now, c, nth, e.work)
  {
    match work
    case Begin =>
    case Opening(db, query, json) => OpeningFits(cfg, eng, store, session, req, db, query, json, log, c, nth);
    case Running(db, query, json) => RunningFits(cfg, eng, store, session, req, db, query, json, log, c, nth);
    case Listing => ListingFits(cfg, eng, store, session, req, log, c, nth);
    case Removing(db) => RemovingFits(cfg, eng, store, session, req, db, log, c, nth);
    case Forgetting(db) =>
      Replies.ResultIsRead(true);
      assert Event(c, nth, Deleted(db)) in log + Events(c, nth, []);
  }

  lemma LastEvent(log: seq<Event>, c: nat, nth: nat, deed: Deed)
    ensures Event(c, nth, deed) in log + Events(c, nth, [deed])
  {
    assert (log + Events(c, nth, [deed]))[|log|] == Event(c, nth, deed);
  }

  lemma OpeningFits(cfg: Config, eng: Engine, store: Store, session: Session, req: string, db: string, query: string,
                    json: Json, log: seq<Event>, c: nat, nth: nat)
    requires store.Valid() && CacheValid(store, session.cache)
    ensures var e := Micro(cfg, eng, store, session, req, Opening(db, query, json));
      && !e.work.Forgetting?
      && (e.work.Finished? ==>
            Fits(log + Events(c, nth, e.deeds), c, nth, DoQuery(db, query, json), e.work.reply))
  {
    var failure := GetHandle(eng, store, session.cache, db).2;
    if failure.Some? {
      LastEvent(log, c, nth, Refused(db, failure.value));
      Replies.SqlErrorFields(failure.value, json);
    }
  }

  lemma RunningFits(cfg: Config, eng: Engine, store: Store, session: Session, req: string, db: string, query: string,
                    json: Json, log: seq<Event>, c: nat, nth: nat)
    requires store.Valid() && CacheValid(store, session.cache) && db in session.cache
    ensures var e := Micro(cfg, eng, store, session, req, Running(db, query, json));
      e.work.Finished? && Fits(log + Events(c, nth, e.deeds), c, nth, DoQuery(db, query, json), e.work.reply)
  {
    var file := session.cache[db];
    Replies.ExecuteTells(eng, store, file, query, json);
    LastEvent(log, c, nth, Ran(db, file.id, query, eng.exec(store, file, query).2));
  }

  lemma ListingFits(cfg: Config, eng: Engine, store: Store, session: Session, req: string, log: seq<Event>, c: nat,
                    nth: nat)
    requires store.Valid() && CacheValid(store, session.cache)
    ensures var e := Micro(cfg, eng, store, session, req, Listing);
      e.work.Finished? && Fits(log + Events(c, nth, e.deeds), c, nth, DoList, e.work.reply)
  {
    var names := eng.listing(store.files.Keys);
    LastEvent(log, c, nth, Listed(names));
    Replies.VisibleIsRest(names);
    Replies.ListIsRead(Visible(names));
  }

  lemma RemovingFits(cfg: Config, eng: Engine, store: Store, session: Session, req: string, db: string,
                     log: seq<Event>, c: nat, nth: nat)
    requires store.Valid() && CacheValid(store, session.cache)
    ensures var e := Micro(cfg, eng, store, session, req, Removing(db));
      var now := log + Events(c, nth, e.deeds);
      && (e.work.Finished? ==> Fits(now, c, nth, DoDelete(db), e.work.reply))
      && HasDeleted(now, c, nth, e.work)
  {
    Replies.ResultIsRead(false);
    LastEvent(log, c, nth, Deleted(db));
    LastEvent(log, c, nth, Kept(db));
  }

  lemma VerdictStays(cfg: Config, eng: Engine, seen: seq<string>, req: string, nth: nat)
    requires 1 <= nth <= |seen|
    ensures Gating.NthVerdict(cfg, eng, seen + [req], nth) == Gating.NthVerdict(cfg, eng, seen, nth)
  {
    assert (seen + [req])[..nth - 1] == seen[..nth - 1];
  }

  lemma BeginFits(cfg: Config, eng: Engine, store: Store, log: seq<Event>, c: nat, k: Conn)
    requires store.Valid() && ConnSound(store, k) && Gating.ConnGated(cfg, eng, k) && ConnFits(cfg, eng, log, c, k)
    requires k.phase.Executing? && k.phase.work.Begin?
    ensures var e := Micro(cfg, eng, store, k.session, k.phase.req, Begin);
      var seen := k.seen + [k.phase.req];
      ConnFits(cfg, eng, log + Events(c, |seen|, e.deeds), c,
               k.(session := e.session, seen := seen, phase := k.phase.(work := e.work)))
  {
    var seen := k.seen + [k.phase.req];
    var more := Events(c, |seen|, Micro(cfg, eng, store, k.session, k.phase.req, Begin).deeds);
    ConnFitsGrows(cfg, eng, log, more, c, k);
    forall i | 0 <= i < |k.line.answered|
      ensures Fits(log + more, c, i + 1, Gating.NthVerdict(cfg, eng, seen, i + 1), k.line.answered[i])
    {
      VerdictStays(cfg, eng, k.seen, k.phase.req, i + 1);
    }
    assert seen[..|k.seen|] == k.seen;
    MicroFits(cfg, eng, store, k.session, k.phase.req, Begin, Gating.NthVerdict(cfg, eng, seen, |seen|), log, c, |seen|);
  }

  lemma WorkFits(cfg: Config, eng: Engine, store: Store, log: seq<Event>, c: nat, k: Conn)
    requires store.Valid() && ConnSound(store, k) && Gating.ConnGated(cfg, eng, k) && ConnFits(cfg, eng, log, c, k)
    requires k.phase.Executing? && !k.phase.work.Begin? && !k.phase.work.Finished?
    ensures var e := Micro(cfg, eng, store, k.session, k.phase.req, k.phase.work);
      ConnFits(cfg, eng, log + Events(c, |k.seen|, e.deeds), c,
               k.(session := e.session, phase := k.phase.(work := e.work)))
  {
    var verdict := Gating.NthVerdict(cfg, eng, k.seen, |k.seen|);
    var more := Events(c, |k.seen|, Micro(cfg, eng, store, k.session, k.phase.req, k.phase.work).deeds);
    ConnFitsGrows(cfg, eng, log, more, c, k);
    MicroFits(cfg, eng, store, k.session, k.phase.req, k.phase.work, verdict, log, c, |k.seen|);
  }

  lemma AdvanceStaysFitting(cfg: Config, eng: Engine, s: State, c: nat)
    requires Sound(s) && Gating.Gated(cfg, eng, s) && Fitting(cfg, eng, s) && Enabled(cfg, eng, s, Advance(c))
    ensures Fitting(cfg, eng, Advanced(cfg, eng, s, c))
  {
    var k, s' := s.conns[c], Advanced(cfg, eng, s, c);
    assert ConnSound(s.store, k) && Gating.ConnGated(cfg, eng, k);
    if k.phase.work.Begin? {
      BeginFits(cfg, eng, s.store, s.log, c, k);
    } else {
      WorkFits(cfg, eng, s.store, s.log, c, k);
    }
    OthersFit(cfg, eng, s, s', c, s'.log[|s.log|..]);
  }

  lemma OthersFit(cfg: Config, eng: Engine, s: State, s': State, c: nat, more: seq<Event>)
    requires Fitting(cfg, eng, s) && c < |s.conns| == |s'.conns| && s'.log == s.log + more
    requires forall i :: 0 <= i < |s.conns| && i != c ==> s'.conns[i] == s.conns[i]
    requires ConnFits(cfg, eng, s'.log, c, s'.conns[c])
    ensures Fitting(cfg, eng, s')
  {
    forall i | 0 <= i < |s'.conns|
      ensures ConnFits(cfg, eng, s'.log, i, s'.conns[i])
    {
      if i != c {
        ConnFitsGrows(cfg, eng, s.log, more, i, s.conns[i]);
      }
    }
  }

  /** Nothing is on its way out that was not before, and nothing more has been answered. */
  predicate Quieter(k: Conn, k': Conn) {
    && k'.seen == k.seen && k'.line.answered == k.line.answered
    && (Outgoing(k'.phase).Some? ==> Outgoing(k'.phase) == Outgoing(k.phase))
    && (k'.phase.Executing? ==> k'.phase == k.phase || !k'.phase.work.Forgetting?)
  }

  lemma QuieterStaysFitting(cfg: Config, eng: Engine, s: State, s': State)
    requires Fitting(cfg, eng, s) && |s'.conns| == |s.conns| && s'.log == s.log
    requires forall c :: 0 <= c < |s.conns| ==> Quieter(s.conns[c], s'.conns[c])
    ensures Fitting(cfg, eng, s')
  {}

  lemma AnsweredFits(cfg: Config, eng: Engine, log: seq<Event>, c: nat, k: Conn)
    requires OutputFramed(eng, k) && ConnFits(cfg, eng, log, c, k) && k.phase.Writing?
    ensures ConnFits(cfg, eng, log, c, Answered(k))
  {
    var answered, reply := k.line.answered, k.phase.reply;
    assert |answered| + 1 == |k.seen|;
    forall i | 0 <= i < |answered| + 1
      ensures Fits(log, c, i + 1, Gating.NthVerdict(cfg, eng, k.seen, i + 1), (answered + [reply])[i])
    {
      if i < |answered| {
        assert (answered + [reply])[i] == answered[i];
      }
    }
  }

  lemma WroteStaysFitting(cfg: Config, eng: Engine, s: State, c: nat)
    requires Sound(s) && Framed(cfg, eng, s) && Fitting(cfg, eng, s) && Enabled(cfg, eng, s, Wrote(c))
    ensures Fitting(cfg, eng, Apply(cfg, eng, s, Wrote(c)))
  {
    AnsweredFits(cfg, eng, s.log, c, s.conns[c]);
  }

  lemma IdleIsQuieter(cfg: Config, eng: Engine, s: State, step: Step)
    requires Sound(s) && Enabled(cfg, eng, s, step) && IsIdle(step) && !step.Wrote?
    ensures var s' := Apply(cfg, eng, s, step);
      |s'.conns| == |s.conns| && s'.log == s.log && forall c :: 0 <= c < |s.conns| ==> Quieter(s.conns[c], s'.conns[c])
  {
    IdleStep(cfg, eng, s, step);
  }

  lemma ReceiveIsQuieter(cfg: Config, eng: Engine, s: State, c: nat)
    requires Sound(s) && Enabled(cfg, eng, s, Receive(c))
    ensures var s' := Received(cfg, eng, s, c);
      |s'.conns| == |s.conns| && s'.log == s.log && forall c :: 0 <= c < |s.conns| ==> Quieter(s.conns[c], s'.conns[c])
  {}

  lemma ReleaseIsQuieter(cfg: Config, eng: Engine, s: State, c: nat)
    requires Sound(s) && Enabled(cfg, eng, s, Release(c))
    ensures var s' := Released(cfg, eng, s, c);
      |s'.conns| == |s.conns| && s'.log == s.log && forall c :: 0 <= c < |s.conns| ==> Quieter(s.conns[c], s'.conns[c])
  {}

  lemma QuietStaysFitting(cfg: Config, eng: Engine, s: State, step: Step)
    requires Sound(s) && Fitting(cfg, eng, s) && Enabled(cfg, eng, s, step)
    requires (IsIdle(step) && !step.Wrote?) || step.Receive? || step.Release?
    ensures Fitting(cfg, eng, Apply(cfg, eng, s, step))
  {
    if IsIdle(step) {
      IdleIsQuieter(cfg, eng, s, step);
    } else if step.Receive? {
      ReceiveIsQuieter(cfg, eng, s, step.conn);
    } else {
      ReleaseIsQuieter(cfg, eng, s, step.conn);
    }
    QuieterStaysFitting(cfg, eng, s, Apply(cfg, eng, s, step));
  }

  lemma StepStaysFitting(cfg: Config, eng: Engine, s: State, step: Step)
    requires Sound(s) && Gating.Gated(cfg, eng, s) && Framed(cfg, eng, s) && Fitting(cfg, eng, s)
    requires Enabled(cfg, eng, s, step)
    ensures Fitting(cfg, eng, Apply(cfg, eng, s, step))
  {
    if step.Advance? {
      AdvanceStaysFitting(cfg, eng, s, step.conn);
    } else if step.Wrote? {
      WroteStaysFitting(cfg, eng, s, step.conn);
    } else if !step.Accept? && !step.Shutdown? {
      QuietStaysFitting(cfg, eng, s, step);
    }
  }

  lemma {:induction false} RunStaysFitting(cfg: Config, eng: Engine, s: State, steps: seq<Step>)
    requires Sound(s) && Gating.Gated(cfg, eng, s) && Framed(cfg, eng, s) && Fitting(cfg, eng, s)
    requires After(cfg, eng, s, steps).Some?
    ensures Fitting(cfg, eng, After(cfg, eng, s, steps).value)
    decreases |steps|
  {
    if steps != [] {
      ApplyKeepsSound(cfg, eng, s, steps[0]);
      Gating.StepStaysGated(cfg, eng, s, steps[0]);
      StepStaysFramed(cfg, eng, s, steps[0]);
      StepStaysFitting(cfg, eng, s, steps[0]);
      RunStaysFitting(cfg, eng, Apply(cfg, eng, s, steps[0]), steps[1..]);
    }
  }

  // -------------------------------------------------------------------------
  // The theorems
  // -------------------------------------------------------------------------

  /** Input, in every reachable state: the requests a connection has begun are the first complete
      in-limit frames of the bytes it has received, in order; the bytes not yet read are exactly
      what follows them; and a cleanly closed connection has begun them all. */
  lemma InputIsExact(cfg: Config, eng: Engine, store: Store, steps: seq<Step>, c: nat)
    requires store.Valid() && After(cfg, eng, Initial(cfg, store), steps).Some?
    requires c < |After(cfg, eng, Initial(cfg, store), steps).value.conns|
    ensures var k := After(cfg, eng, Initial(cfg, store), steps).value.conns[c];
      var bodies := Requests(k.line.received, cfg.maxPacket);
      && k.line.taken <= bodies && Begun(k) == Decoded(eng, k.line.taken)
      && k.line.received == Frames(k.line.taken) + k.line.unread
      && (k.phase == Closed(true) ==>
            && k.line.taken == bodies && Leftover(k.line.received, cfg.maxPacket) == k.line.unread
            && (k.line.ended || OverLimit(cfg, k.line.unread)))
  {
    RunStaysFramed(cfg, eng, Initial(cfg, store), steps);
    var k := After(cfg, eng, Initial(cfg, store), steps).value.conns[c];
    assert InputFramed(cfg, eng, k);
    RequestsAfterFrames(k.line.taken, k.line.unread, cfg.maxPacket);
  }

  /** Output, in every reachable state: what was sent is the frames of the replies written, one for
      each request begun but the one in progress, in order, each telling what was done for its own
      request; during and after an unfinished write a part of that one's frame follows, and what is still to be
      sent completes it. */
  lemma OutputIsExact(cfg: Config, eng: Engine, store: Store, steps: seq<Step>, c: nat)
    requires store.Valid() && After(cfg, eng, Initial(cfg, store), steps).Some?
    requires c < |After(cfg, eng, Initial(cfg, store), steps).value.conns|
    ensures var s := After(cfg, eng, Initial(cfg, store), steps).value;
      var k := s.conns[c];
      && |k.line.answered| + Due(k.phase) == |Begun(k)| && |k.line.answered| <= |k.seen|
      && (forall i :: 0 <= i < |k.line.answered| ==>
            Fits(s.log, c, i + 1, Gating.NthVerdict(cfg, eng, k.seen, i + 1), k.line.answered[i]))
      && (if OnTheWire(k.phase) then
            var whole := Frames(Encoded(eng, k.line.answered));
            whole <= k.line.sent <= whole + Frame(eng.encode(k.phase.reply))
          else k.line.sent == Frames(Encoded(eng, k.line.answered)))
      && (k.phase.Writing? ==>
            k.line.sent + k.phase.left == Frames(Encoded(eng, k.line.answered)) + Frame(eng.encode(k.phase.reply)))
  {
    RunStaysFramed(cfg, eng, Initial(cfg, store), steps);
    RunStaysFitting(cfg, eng, Initial(cfg, store), steps);
    var s := After(cfg, eng, Initial(cfg, store), steps).value;
    assert OutputFramed(eng, s.conns[c]) && ConnFits(cfg, eng, s.log, c, s.conns[c]);
  }

  /** The replies written, or begun to be written, are shorter than 2^32 bytes. */
  predicate Short(eng: Engine, k: Conn) {
    && (forall i :: 0 <= i < |k.line.answered| ==> |eng.encode(k.line.answered[i])| < U32_LIMIT)
    && (OnTheWire(k.phase) ==> |eng.encode(k.phase.reply)| < U32_LIMIT)
  }

  /** So a client that reads frames from what it was sent sees exactly the replies written, and
      perhaps the one whose bytes are all out though its write has not returned. */
  lemma ClientSeesReplies(cfg: Config, eng: Engine, store: Store, steps: seq<Step>, c: nat)
    requires store.Valid() && After(cfg, eng, Initial(cfg, store), steps).Some?
    requires c < |After(cfg, eng, Initial(cfg, store), steps).value.conns|
    requires Short(eng, After(cfg, eng, Initial(cfg, store), steps).value.conns[c])
    ensures var k := After(cfg, eng, Initial(cfg, store), steps).value.conns[c];
      var seen := Requests(k.line.sent, U32_LIMIT - 1);
      if OnTheWire(k.phase) then
        Encoded(eng, k.line.answered) <= seen <= Encoded(eng, k.line.answered + [k.phase.reply])
      else seen == Encoded(eng, k.line.answered)
  {
    OutputIsExact(cfg, eng, store, steps, c);
    var k := After(cfg, eng, Initial(cfg, store), steps).value.conns[c];
    if OnTheWire(k.phase) {
      PartIsRead(eng, k.line.answered, k.phase.reply, k.line.sent);
    } else {
      RepliesAreRead(Encoded(eng, k.line.answered));
    }
  }

  lemma PartIsRead(eng: Engine, answered: seq<Json>, reply: Json, sent: seq<Octet>)
    requires forall i :: 0 <= i < |answered| ==> |eng.encode(answered[i])| < U32_LIMIT
    requires |eng.encode(reply)| < U32_LIMIT
    requires var whole := Frames(Encoded(eng, answered)); whole <= sent <= whole + Frame(eng.encode(reply))
    ensures var seen := Requests(sent, U32_LIMIT - 1);
      Encoded(eng, answered) <= seen <= Encoded(eng, answered + [reply])
  {
    var all := answered + [reply];
    assert all[..|answered|] == answered;
    assert [] + Frames(Encoded(eng, answered)) == Frames(Encoded(eng, answered));
    DeliveredIsRead(eng, all, |answered|, sent);
    var seen := Requests(sent, U32_LIMIT - 1);
    assert Encoded(eng, all) == Encoded(eng, answered) + [eng.encode(reply)];
  }
}
