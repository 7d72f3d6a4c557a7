/** The whole server as a transition system: any number of connections, each reading, waiting
    for a permit, executing, writing or closed; one first-come first-served semaphore; one
    folder. A handler call is several steps, so other connections act in between. */
module System {
  import opened Basics
  import opened JsonValue
  import opened HandlerSpec
  import opened Framing
  import Cidr

  // -------------------------------------------------------------------------
  // One connection's handler
  // -------------------------------------------------------------------------

  /** What an executing handler does next; each is one step on the shared folder. */
  datatype Work =
    | Begin
    | Opening(db: string, query: string, json: Json)
    | Running(db: string, query: string, json: Json)
    | Listing
    | Removing(db: string)
    | Forgetting(db: string)
    | Finished(reply: Json)

  /** What a step did to the folder, and what came of it, for the history. */
  datatype Deed =
    | Opened(db: string, id: nat)
    | Refused(db: string, error: (int, string))
    | Ran(db: string, id: nat, query: string, outcome: Outcome)
    | Listed(names: seq<string>)
    | Deleted(name: string)
    | Kept(name: string)

  datatype Effect = Effect(store: Store, session: Session, work: Work, deeds: seq<Deed>)

  function Plan(action: Action): Work {
    match action
    case Answer(reply) => Finished(reply)
    case DoQuery(db, query, json) => Opening(db, query, json)
    case DoList => Listing
    case DoDelete(db) => Removing(db)
  }

  /** A statement runs on a cached handle. */
  predicate WorkValid(session: Session, work: Work) { work.Running? ==> work.db in session.cache }

  /** One step of a handler. */
  function Micro(cfg: Config, eng: Engine, store: Store, session: Session, req: string, work: Work): Effect
    requires store.Valid() && CacheValid(store, session.cache) && WorkValid(session, work) && !work.Finished?
  {
    match work
    case Begin =>
      var (flag, action) := Gate(cfg, eng, session.authenticated, req);
      Effect(store, session.(authenticated := flag), Plan(action), [])
    case Opening(db, query, json) =>
      GetHandleKeepsValid(eng, store, session.cache, db);
      var (grown, handles, failure) := GetHandle(eng, store, session.cache, db);
      if failure.Some? then Effect(grown, session, Finished(SqlError(failure.value, json)), [Refused(db, failure.value)])
      else
        Effect(grown, session.(cache := handles), Running(db, query, json),
               if db in session.cache then [] else [Opened(db, handles[db].id)])
    case Running(db, query, json) =>
      var file := session.cache[db];
      var (after, scratch, reply) := Execute(eng, store, file, query, json);
      Effect(after, session.(cache := session.cache[db := OpenFile(file.id, scratch)]), Finished(reply),
             [Ran(db, file.id, query, eng.exec(store, file, query).2)])
    case Listing =>
      Effect(store, session, Finished(ListReply(eng, store)), [Listed(eng.listing(store.files.Keys))])
    case Removing(db) =>
      if Removes(eng, store, db) then Effect(Remove(store, db), session, Forgetting(db), [Deleted(db)])
      else Effect(store, session, Finished(ResultReply(false)), [Kept(db)])
    case Forgetting(db) =>
      Effect(store, session.(cache := session.cache - {db}), Finished(ResultReply(true)), [])
  }

  lemma MicroKeepsValid(cfg: Config, eng: Engine, store: Store, session: Session, req: string, work: Work)
    requires store.Valid() && CacheValid(store, session.cache) && WorkValid(session, work) && !work.Finished?
    ensures var e := Micro(cfg, eng, store, session, req, work);
      && e.store.Valid() && e.store.next >= store.next
      && CacheValid(e.store, e.session.cache) && WorkValid(e.session, e.work)
  {
    match work
    case Opening(db, _, _) => GetHandleKeepsValid(eng, store, session.cache, db);
    case Running(db, query, json) => ExecuteGrows(eng, store, session.cache[db], query, json);
    case _ =>
  }

  // -------------------------------------------------------------------------
  // The server
  // -------------------------------------------------------------------------

  /** `Writing`: a reply of whose frame `left` is still to be sent. `Broken`: it could not be
      written. `Closed`: cleanly, when nothing more can be read, or by a failed read. */
  datatype Phase =
    | Reading
    | Waiting(req: string)
    | Executing(req: string, work: Work)
    | Writing(reply: Json, left: seq<Octet>)
    | Broken(reply: Json)
    | Closed(clean: bool)

  /** The two byte streams of a connection: what has arrived and what of it is not read yet,
      whether the client has ended its side, and what has been sent; with the request bodies
      read and the replies written so far. */
  datatype Line = Line(
    received: seq<Octet>, unread: seq<Octet>, ended: bool, taken: seq<seq<Octet>>,
    answered: seq<Json>, sent: seq<Octet>)

  /** `seen` is every request the handler has started on. */
  datatype Conn = Conn(peer: Cidr.Ip, line: Line, session: Session, seen: seq<string>, permit: bool, phase: Phase)

  function NewConn(peer: Cidr.Ip): Conn {
    Conn(peer, Line([], [], false, [], [], []), FRESH_SESSION, [], false, Reading)
  }

  /** Connection `conn`, on its `nth` request (counting from 1), did `deed`. */
  datatype Event = Event(conn: nat, nth: nat, deed: Deed)

  datatype State = State(conns: seq<Conn>, free: nat, queue: seq<nat>, store: Store, log: seq<Event>, accepting: bool)

  function Permits(cfg: Config): nat { if cfg.workers > 1 then cfg.workers else 1 }

  function Initial(cfg: Config, store: Store): State {
    State([], Permits(cfg), [], store, [], true)
  }

  /** What every step needs to make sense. */
  ghost predicate Sound(s: State) {
    && s.store.Valid()
    && (forall c :: 0 <= c < |s.conns| ==> ConnSound(s.store, s.conns[c]))
    && (forall i :: 0 <= i < |s.queue| ==> s.queue[i] < |s.conns| && s.conns[s.queue[i]].phase.Waiting?)
    && (forall i, j :: 0 <= i < j < |s.queue| ==> s.queue[i] != s.queue[j])
  }

  ghost predicate ConnSound(store: Store, k: Conn) {
    CacheValid(store, k.session.cache) && (k.phase.Executing? ==> WorkValid(k.session, k.phase.work))
  }

  /** `Accept`: a peer connects. `Deliver`, `Hangup`: its bytes arrive, its side ends. `Receive`:
      a complete in-limit frame is read. `Advance`: a handler takes one step. `Release`: it
      returns and drops its permit. `Send`: some bytes of the reply go out. `Wrote`, `Lose`: all
      have, or no more will. `Close`: the end of the stream or a header over the limit. `Reset`: a failed read. */
  datatype Step =
    | Accept(peer: Cidr.Ip)
    | Deliver(conn: nat, bytes: seq<Octet>)
    | Hangup(conn: nat)
    | Receive(conn: nat)
    | Advance(conn: nat)
    | Release(conn: nat)
    | Send(conn: nat, n: nat)
    | Wrote(conn: nat)
    | Lose(conn: nat)
    | Close(conn: nat)
    | Reset(conn: nat)
    | Shutdown

  predicate OverLimit(cfg: Config, unread: seq<Octet>) { |unread| >= 4 && HeaderValue(unread[..4]) > cfg.maxPacket }

  /** Steps on a connection's streams alone. */
  predicate IsIdle(step: Step) {
    step.Deliver? || step.Hangup? || step.Send? || step.Wrote? || step.Lose? || step.Close? || step.Reset?
  }

  predicate CanIdle(cfg: Config, k: Conn, step: Step)
    requires IsIdle(step)
  {
    match step
    case Deliver(_, _) => !k.line.ended
    case Hangup(_) => !k.line.ended
    case Send(_, n) => k.phase.Writing? && n <= |k.phase.left|
    case Wrote(_) => k.phase.Writing? && k.phase.left == []
    case Lose(_) => k.phase.Writing?
    case Close(_) =>
      k.phase.Reading? && Stuck(k.line.unread, cfg.maxPacket) && (k.line.ended || OverLimit(cfg, k.line.unread))
    case Reset(_) => k.phase.Reading?
  }

  predicate Enabled(cfg: Config, eng: Engine, s: State, step: Step) {
    if IsIdle(step) then step.conn < |s.conns| && CanIdle(cfg, s.conns[step.conn], step)
    else match step
      case Accept(_) => s.accepting
      case Receive(c) => c < |s.conns| && s.conns[c].phase.Reading? && !Stuck(s.conns[c].line.unread, cfg.maxPacket)
      case Advance(c) => c < |s.conns| && s.conns[c].phase.Executing? && !s.conns[c].phase.work.Finished?
      case Release(c) => c < |s.conns| && s.conns[c].phase.Executing? && s.conns[c].phase.work.Finished?
      case Shutdown => s.accepting
  }

  function Events(c: nat, nth: nat, deeds: seq<Deed>): (events: seq<Event>)
    ensures |events| == |deeds| && forall i :: 0 <= i < |deeds| ==> events[i] == Event(c, nth, deeds[i])
  {
    seq(|deeds|, i requires 0 <= i < |deeds| => Event(c, nth, deeds[i]))
  }

  /** The connection takes a permit and its handler starts. */
  function Started(k: Conn, req: string): Conn { k.(permit := true, phase := Executing(req, Begin)) }

  /** One frame is taken off the stream. */
  function Read(line: Line): Line
    requires |line.unread| >= 4 && |line.unread| >= 4 + HeaderValue(line.unread[..4])
  {
    var n := HeaderValue(line.unread[..4]);
    line.(unread := line.unread[4 + n..], taken := line.taken + [line.unread[4..4 + n]])
  }

  /** The request is read; `acquire` gives a free permit or the end of the queue. */
  function Received(cfg: Config, eng: Engine, s: State, c: nat): State
    requires Enabled(cfg, eng, s, Receive(c))
  {
    var line := Read(s.conns[c].line);
    var k := s.conns[c].(line := line);
    var req := eng.decode(line.taken[|line.taken| - 1]);
    if s.free > 0 then s.(free := s.free - 1, conns := s.conns[c := Started(k, req)])
    else s.(queue := s.queue + [c], conns := s.conns[c := k.(phase := Waiting(req))])
  }

  function Advanced(cfg: Config, eng: Engine, s: State, c: nat): State
    requires Sound(s) && Enabled(cfg, eng, s, Advance(c))
  {
    var k := s.conns[c];
    var e := Micro(cfg, eng, s.store, k.session, k.phase.req, k.phase.work);
    var seen := if k.phase.work.Begin? then k.seen + [k.phase.req] else k.seen;
    s.(store := e.store,
       conns := s.conns[c := k.(session := e.session, seen := seen, phase := k.phase.(work := e.work))],
       log := s.log + Events(c, |seen|, e.deeds))
  }

  /** The handler has returned and dropped its permit; its reply is framed. */
  function Returned(eng: Engine, k: Conn): Conn
    requires k.phase.Executing? && k.phase.work.Finished?
  {
    k.(permit := false, phase := Writing(k.phase.work.reply, Frame(eng.encode(k.phase.work.reply))))
  }

  /** A dropped permit goes to whoever has waited longest. */
  function Released(cfg: Config, eng: Engine, s: State, c: nat): State
    requires Sound(s) && Enabled(cfg, eng, s, Release(c))
  {
    var k := s.conns[c];
    var conns := s.conns[c := Returned(eng, k)];
    if s.queue == [] then s.(conns := conns, free := s.free + 1)
    else
      var head := s.queue[0];
      s.(conns := conns[head := Started(conns[head], s.conns[head].phase.req)], queue := s.queue[1..])
  }

  function Delivered(k: Conn, bytes: seq<Octet>): Conn {
    k.(line := k.line.(received := k.line.received + bytes, unread := k.line.unread + bytes))
  }

  function Sent(k: Conn, n: nat): Conn
    requires k.phase.Writing? && n <= |k.phase.left|
  {
    k.(line := k.line.(sent := k.line.sent + k.phase.left[..n]), phase := k.phase.(left := k.phase.left[n..]))
  }

  function Answered(k: Conn): Conn
    requires k.phase.Writing?
  {
    k.(line := k.line.(answered := k.line.answered + [k.phase.reply]), phase := Reading)
  }

  function Idled(cfg: Config, k: Conn, step: Step): Conn
    requires IsIdle(step) && CanIdle(cfg, k, step)
  {
    match step
    case Deliver(_, bytes) => Delivered(k, bytes)
    case Hangup(_) => k.(line := k.line.(ended := true))
    case Send(_, n) => Sent(k, n)
    case Wrote(_) => Answered(k)
    case Lose(_) => k.(phase := Broken(k.phase.reply))
    case Close(_) => k.(phase := Closed(true))
    case Reset(_) => k.(phase := Closed(false))
  }

  function Apply(cfg: Config, eng: Engine, s: State, step: Step): State
    requires Sound(s) && Enabled(cfg, eng, s, step)
  {
    if IsIdle(step) then s.(conns := s.conns[step.conn := Idled(cfg, s.conns[step.conn], step)])
    else match step
      case Accept(peer) =>
        if Cidr.IsIpAllowed(cfg.whitelist, peer) then s.(conns := s.conns + [NewConn(peer)]) else s
      case Receive(c) => Received(cfg, eng, s, c)
      case Advance(c) => Advanced(cfg, eng, s, c)
      case Release(c) => Released(cfg, eng, s, c)
      case Shutdown => s.(accepting := false)
  }

  lemma AdvancedKeepsSound(cfg: Config, eng: Engine, s: State, c: nat)
    requires Sound(s) && Enabled(cfg, eng, s, Advance(c))
    ensures Sound(Advanced(cfg, eng, s, c))
  {
    var k := s.conns[c];
    assert ConnSound(s.store, k);
    MicroKeepsValid(cfg, eng, s.store, k.session, k.phase.req, k.phase.work);
  }

  lemma ReleasedKeepsSound(cfg: Config, eng: Engine, s: State, c: nat)
    requires Sound(s) && Enabled(cfg, eng, s, Release(c))
    ensures Sound(Released(cfg, eng, s, c))
  {}

  lemma ReceivedKeepsSound(cfg: Config, eng: Engine, s: State, c: nat)
    requires Sound(s) && Enabled(cfg, eng, s, Receive(c))
    ensures Sound(Received(cfg, eng, s, c))
  {}

  /** One connection changed in its streams and phase only, and neither waiting nor executing
      unless as before. */
  ghost predicate Idles(k: Conn, k': Conn) {
    && k'.peer == k.peer && k'.session == k.session && k'.seen == k.seen && k'.permit == k.permit
    && (k'.phase == k.phase
        || (k.phase.Writing? && k'.phase.Writing? && k'.phase.reply == k.phase.reply)
        || ((k.phase.Reading? || k.phase.Writing?) && (k'.phase.Reading? || k'.phase.Broken? || k'.phase.Closed?)))
  }

  lemma IdledIdles(cfg: Config, k: Conn, step: Step)
    requires IsIdle(step) && CanIdle(cfg, k, step)
    ensures Idles(k, Idled(cfg, k, step))
  {}

  /** Everything shared stays. */
  lemma IdleStep(cfg: Config, eng: Engine, s: State, step: Step)
    requires Sound(s) && Enabled(cfg, eng, s, step) && IsIdle(step)
    ensures var k' := Idled(cfg, s.conns[step.conn], step);
      Apply(cfg, eng, s, step) == s.(conns := s.conns[step.conn := k']) && Idles(s.conns[step.conn], k')
  {
    IdledIdles(cfg, s.conns[step.conn], step);
  }

  lemma IdleKeepsSound(s: State, c: nat, k: Conn)
    requires Sound(s) && c < |s.conns| && Idles(s.conns[c], k)
    ensures Sound(s.(conns := s.conns[c := k]))
  {}

  lemma ApplyKeepsSound(cfg: Config, eng: Engine, s: State, step: Step)
    requires Sound(s) && Enabled(cfg, eng, s, step)
    ensures Sound(Apply(cfg, eng, s, step))
  {
    if IsIdle(step) {
      IdleStep(cfg, eng, s, step);
      IdleKeepsSound(s, step.conn, Apply(cfg, eng, s, step).conns[step.conn]);
    } else {
      match step
      case Advance(c) => AdvancedKeepsSound(cfg, eng, s, c);
      case Release(c) => ReleasedKeepsSound(cfg, eng, s, c);
      case Receive(c) => ReceivedKeepsSound(cfg, eng, s, c);
      case _ =>
    }
  }

  // -------------------------------------------------------------------------
  // Runs
  // -------------------------------------------------------------------------

  /** The state after the steps, if each was enabled in its turn. */
  function After(cfg: Config, eng: Engine, s: State, steps: seq<Step>): Option<State>
    requires Sound(s)
    decreases |steps|
  {
    if steps == [] then Some(s)
    else if !Enabled(cfg, eng, s, steps[0]) then None
    else
      ApplyKeepsSound(cfg, eng, s, steps[0]);
      After(cfg, eng, Apply(cfg, eng, s, steps[0]), steps[1..])
  }

  lemma AfterFirst(cfg: Config, eng: Engine, s: State, steps: seq<Step>, n: nat)
    requires Sound(s) && 1 <= n <= |steps| && Enabled(cfg, eng, s, steps[0])
    ensures Sound(Apply(cfg, eng, s, steps[0]))
    ensures After(cfg, eng, s, steps[..n]) == After(cfg, eng, Apply(cfg, eng, s, steps[0]), steps[1..][..n - 1])
  {
    ApplyKeepsSound(cfg, eng, s, steps[0]);
    assert steps[..n][1..] == steps[1..][..n - 1];
  }

  /** A run can be cut anywhere. */
  lemma {:induction false} AfterPrefix(cfg: Config, eng: Engine, s: State, steps: seq<Step>, n: nat)
    requires Sound(s) && n <= |steps| && After(cfg, eng, s, steps).Some?
    ensures After(cfg, eng, s, steps[..n]).Some? && Sound(After(cfg, eng, s, steps[..n]).value)
    ensures After(cfg, eng, After(cfg, eng, s, steps[..n]).value, steps[n..]) == After(cfg, eng, s, steps)
    decreases n
  {
    if n == 0 {
      assert steps[0..] == steps;
    } else {
      AfterFirst(cfg, eng, s, steps, n);
      AfterPrefix(cfg, eng, Apply(cfg, eng, s, steps[0]), steps[1..], n - 1);
      assert steps[1..][n - 1..] == steps[n..];
    }
  }

  lemma AfterIsSound(cfg: Config, eng: Engine, s: State, steps: seq<Step>)
    requires Sound(s) && After(cfg, eng, s, steps).Some?
    ensures Sound(After(cfg, eng, s, steps).value)
  {
    AfterPrefix(cfg, eng, s, steps, |steps|);
    assert steps[..|steps|] == steps;
  }

  /** Runs can be put together. */
  lemma {:induction false} AfterConcat(cfg: Config, eng: Engine, s: State, a: seq<Step>, b: seq<Step>)
    requires Sound(s) && After(cfg, eng, s, a).Some?
    ensures Sound(After(cfg, eng, s, a).value)
    ensures After(cfg, eng, s, a + b) == After(cfg, eng, After(cfg, eng, s, a).value, b)
    decreases |a|
  {
    if a == [] {
      assert a + b == b;
    } else {
      ApplyKeepsSound(cfg, eng, s, a[0]);
      AfterConcat(cfg, eng, Apply(cfg, eng, s, a[0]), a[1..], b);
      SliceConcat(a, b, 1);
    }
  }

  lemma AfterOne(cfg: Config, eng: Engine, s: State, step: Step)
    requires Sound(s) && Enabled(cfg, eng, s, step)
    ensures After(cfg, eng, s, [step]) == Some(Apply(cfg, eng, s, step))
  {
    ApplyKeepsSound(cfg, eng, s, step);
    assert [step][1..] == [];
  }

  lemma AfterCons(cfg: Config, eng: Engine, s: State, step: Step, rest: seq<Step>)
    requires Sound(s) && Enabled(cfg, eng, s, step)
    ensures Sound(Apply(cfg, eng, s, step))
    ensures After(cfg, eng, s, [step] + rest) == After(cfg, eng, Apply(cfg, eng, s, step), rest)
  {
    ApplyKeepsSound(cfg, eng, s, step);
    assert ([step] + rest)[1..] == rest;
  }

  lemma AfterTwo(cfg: Config, eng: Engine, s: State, first: Step, second: Step)
    requires Sound(s) && Enabled(cfg, eng, s, first)
    requires Sound(Apply(cfg, eng, s, first)) && Enabled(cfg, eng, Apply(cfg, eng, s, first), second)
    ensures After(cfg, eng, s, [first, second]) == Some(Apply(cfg, eng, Apply(cfg, eng, s, first), second))
  {
    AfterOne(cfg, eng, Apply(cfg, eng, s, first), second);
    assert [first, second][1..] == [second];
  }
}
