/** Freshness of cached handles over all interleavings: a cached handle refers to the file the
    folder holds under its name exactly as long as nobody has deleted that name since. */
module Freshness {
  import opened HandlerSpec
  import opened System
  import Names

  /** The folder currently holds file `id` under the entry that `name` resolves to. */
  predicate Current(store: Store, name: string, id: nat) {
    Names.Entry(name) in store.files && store.files[Names.Entry(name)] == id
  }

  predicate Renews(e: Event, c: nat, name: string) { e.conn == c && e.deed.Opened? && e.deed.db == name }

  predicate Deletes(e: Event, name: string) { e.deed.Deleted? && e.deed.name == Names.Entry(name) }

  /** The name's entry has been deleted since connection `c` last opened the name. */
  predicate DeletedSince(log: seq<Event>, c: nat, name: string) {
    log != [] &&
    var e := log[|log| - 1];
    !Renews(e, c, name) && (Deletes(e, name) || DeletedSince(log[..|log| - 1], c, name))
  }

  /** The same, by some other connection. */
  predicate DeletedByOthers(log: seq<Event>, c: nat, name: string) {
    log != [] &&
    var e := log[|log| - 1];
    !Renews(e, c, name) && ((Deletes(e, name) && e.conn != c) || DeletedByOthers(log[..|log| - 1], c, name))
  }

  /** Event `i` is a deletion by some other connection, and the name has not been opened since. */
  predicate LastsFrom(log: seq<Event>, c: nat, name: string, i: nat) {
    && i < |log| && Deletes(log[i], name) && log[i].conn != c
    && forall j :: i <= j < |log| ==> !Renews(log[j], c, name)
  }

  lemma LastsOn(log: seq<Event>, e: Event, c: nat, name: string, i: nat)
    ensures LastsFrom(log + [e], c, name, i)
      <==> !Renews(e, c, name) && (LastsFrom(log, c, name, i) || (i == |log| && Deletes(e, name) && e.conn != c))
  {
    var all := log + [e];
    assert forall j :: 0 <= j < |log| ==> all[j] == log[j];
    assert all[|log|] == e;
  }

  lemma {:induction false} DeletedByOthersMeans(log: seq<Event>, c: nat, name: string)
    ensures DeletedByOthers(log, c, name) <==> exists i: nat :: LastsFrom(log, c, name, i)
  {
    if log != [] {
      var front, e := log[..|log| - 1], log[|log| - 1];
      DeletedByOthersMeans(front, c, name);
      forall i: nat
        ensures LastsFrom(log, c, name, i)
          <==> !Renews(e, c, name) && (LastsFrom(front, c, name, i) || (i == |front| && Deletes(e, name) && e.conn != c))
      {
        assert log == front + [e];
        LastsOn(front, e, c, name, i);
      }
      assert Deletes(e, name) && e.conn != c && !Renews(e, c, name) ==> LastsFrom(log, c, name, |front|);
    }
  }

  lemma Appended(log: seq<Event>, e: Event)
    ensures (log + [e])[|log|] == e && (log + [e])[..|log|] == log
  {}

  // -------------------------------------------------------------------------
  // One key
  // -------------------------------------------------------------------------

  /** The handle is on the current file exactly if no deletion has come in between. */
  predicate KeyExact(store: Store, log: seq<Event>, c: nat, name: string, id: nat) {
    Current(store, name, id) <==> !DeletedSince(log, c, name)
  }

  /** An own deletion of a plain name is followed at once by forgetting its handle. */
  predicate KeyBlamed(log: seq<Event>, c: nat, name: string, phase: Phase) {
    '/' !in name && DeletedSince(log, c, name) ==>
      DeletedByOthers(log, c, name) || (phase.Executing? && phase.work == Forgetting(name))
  }

  lemma {:induction false} OthersIsSince(log: seq<Event>, c: nat, name: string)
    ensures DeletedByOthers(log, c, name) ==> DeletedSince(log, c, name)
  {
    if log != [] {
      OthersIsSince(log[..|log| - 1], c, name);
    }
  }

  ghost predicate ConnExact(store: Store, log: seq<Event>, c: nat, k: Conn) {
    forall name :: name in k.session.cache ==>
      && k.session.cache[name].id < store.next
      && KeyExact(store, log, c, name, k.session.cache[name].id)
      && KeyBlamed(log, c, name, k.phase)
  }

  ghost predicate Exact(s: State) {
    forall c :: 0 <= c < |s.conns| ==> ConnExact(s.store, s.log, c, s.conns[c])
  }

  // -------------------------------------------------------------------------
  // One event
  // -------------------------------------------------------------------------

  /** Neither opened anew by this connection nor deleted: the key's standing is as before. */
  lemma NeutralEvent(log: seq<Event>, e: Event, c: nat, name: string)
    requires !Renews(e, c, name) && !Deletes(e, name)
    ensures DeletedSince(log + [e], c, name) <==> DeletedSince(log, c, name)
    ensures DeletedByOthers(log + [e], c, name) <==> DeletedByOthers(log, c, name)
  {
    Appended(log, e);
  }

  lemma RenewingEvent(log: seq<Event>, e: Event, c: nat, name: string)
    requires Renews(e, c, name)
    ensures !DeletedSince(log + [e], c, name)
  {
    Appended(log, e);
  }

  lemma DeletingEvent(log: seq<Event>, e: Event, c: nat, name: string)
    requires Deletes(e, name)
    ensures DeletedSince(log + [e], c, name)
    ensures e.conn != c ==> DeletedByOthers(log + [e], c, name)
  {
    Appended(log, e);
  }

  /** Whatever else makes the folder grow, opening another name, opening on another connection or
      running a statement, changes nothing for a cached handle: if its file is gone, a file made
      in its place is a new one. */
  lemma GrowingKeepsExact(store: Store, store': Store, log: seq<Event>, e: Event, c: nat, name: string, id: nat,
                          phase: Phase)
    requires Grows(store, store') && id < store.next && KeyExact(store, log, c, name, id) && KeyBlamed(log, c, name, phase)
    requires !Renews(e, c, name) && !e.deed.Deleted?
    ensures KeyExact(store', log + [e], c, name, id) && KeyBlamed(log + [e], c, name, phase)
  {
    NeutralEvent(log, e, c, name);
  }

  lemma DeletingKeepsExact(store: Store, log: seq<Event>, e: Event, c: nat, name: string, id: nat, phase: Phase,
        phase': Phase)
    requires KeyExact(store, log, c, name, id) && KeyBlamed(log, c, name, phase)
    requires e.deed.Deleted? && '/' !in e.deed.name
    requires if e.conn == c then phase'.Executing? && phase'.work == Forgetting(e.deed.name) else phase' == phase
    requires e.conn == c ==> phase.Executing? && !phase.work.Forgetting?
    ensures KeyExact(Remove(store, e.deed.name), log + [e], c, name, id) && KeyBlamed(log + [e], c, name, phase')
  {
    if '/' !in name {
      Names.PlainNames(name);
    }
    if Deletes(e, name) {
      DeletingEvent(log, e, c, name);
    } else {
      NeutralEvent(log, e, c, name);
    }
  }

  // -------------------------------------------------------------------------
  // One handler step
  // -------------------------------------------------------------------------

  /** All that a handler step can do to the folder's entries. */
  ghost predicate FolderStep(store: Store, store': Store, deeds: seq<Deed>) {
    && store.Valid() && store'.next >= store.next && |deeds| <= 1
    && (deeds == [] ==> store' == store)
    && (deeds != [] ==>
          match deeds[0]
          case Opened(db, id) => Grows(store, store') && Current(store', db, id)
          case Deleted(name) => '/' !in name && store' == Remove(store, name)
          case _ => Grows(store, store'))
  }

  lemma MicroIsFolderStep(cfg: Config, eng: Engine, store: Store, session: Session, req: string, work: Work)
    requires store.Valid() && CacheValid(store, session.cache) && WorkValid(session, work) && !work.Finished?
    ensures var e := Micro(cfg, eng, store, session, req, work);
      FolderStep(store, e.store, e.deeds)
  {
    match work
    case Opening(db, _, _) => GetHandleKeepsValid(eng, store, session.cache, db);
    case Running(db, query, json) => ExecuteGrows(eng, store, session.cache[db], query, json);
    case _ =>
  }

  /** One handle across a handler step, its own connection's or another's, that neither opens it
      nor, on its own connection, deletes. */
  lemma KeyStaysExact(store: Store, store': Store, log: seq<Event>, o: nat, nth: nat, deeds: seq<Deed>,
                      c: nat, name: string, id: nat, phase: Phase)
    requires store.Valid() && FolderStep(store, store', deeds) && id < store.next
    requires KeyExact(store, log, c, name, id) && KeyBlamed(log, c, name, phase)
    requires deeds != [] && o == c ==> !deeds[0].Deleted? && !(deeds[0].Opened? && deeds[0].db == name)
    ensures KeyExact(store', log + Events(o, nth, deeds), c, name, id)
    ensures KeyBlamed(log + Events(o, nth, deeds), c, name, phase)
  {
    if deeds == [] {
      assert log + Events(o, nth, deeds) == log;
    } else {
      var e := Event(o, nth, deeds[0]);
      assert Events(o, nth, deeds) == [e];
      match e.deed
      case Deleted(_) => DeletingKeepsExact(store, log, e, c, name, id, phase, phase);
      case _ => GrowingKeepsExact(store, store', log, e, c, name, id, phase);
    }
  }

  lemma BystanderStaysExact(store: Store, store': Store, log: seq<Event>, o: nat, nth: nat, deeds: seq<Deed>, c: nat,
        k: Conn)
    requires store.Valid() && FolderStep(store, store', deeds) && ConnExact(store, log, c, k) && c != o
    ensures ConnExact(store', log + Events(o, nth, deeds), c, k)
  {
    forall name | name in k.session.cache
      ensures KeyExact(store', log + Events(o, nth, deeds), c, name, k.session.cache[name].id)
      ensures KeyBlamed(log + Events(o, nth, deeds), c, name, k.phase)
    {
      KeyStaysExact(store, store', log, o, nth, deeds, c, name, k.session.cache[name].id, k.phase);
    }
  }

  lemma OneEvent(c: nat, nth: nat, deeds: seq<Deed>)
    requires |deeds| == 1
    ensures Events(c, nth, deeds) == [Event(c, nth, deeds[0])]
  {}

  /** What a step of a connection's own handler does to its cache, apart from scratch states. */
  lemma OwnCache(cfg: Config, eng: Engine, store: Store, k: Conn, name: string)
    requires store.Valid() && ConnSound(store, k) && k.phase.Executing? && !k.phase.work.Finished?
    requires name in Micro(cfg, eng, store, k.session, k.phase.req, k.phase.work).session.cache
    ensures var e := Micro(cfg, eng, store, k.session, k.phase.req, k.phase.work);
      if e.deeds != [] && e.deeds[0].Opened? && e.deeds[0].db == name then e.session.cache[name].id == e.deeds[0].id
      else
        && name in k.session.cache && e.session.cache[name].id == k.session.cache[name].id
        && (e.deeds != [] && e.deeds[0].Deleted? ==> e.work == Forgetting(e.deeds[0].name) && k.phase.work.Removing?)
        && (k.phase.work == Forgetting(name) ==> false)
  {
    if k.phase.work.Opening? {
      GetHandleKeepsValid(eng, store, k.session.cache, k.phase.work.db);
    }
  }

  /** The stepping connection's own handles. */
  lemma OwnKeyStaysExact(cfg: Config, eng: Engine, store: Store, log: seq<Event>, c: nat, nth: nat, k: Conn,
                         name: string)
    requires store.Valid() && ConnSound(store, k) && ConnExact(store, log, c, k)
    requires k.phase.Executing? && !k.phase.work.Finished?
    requires name in Micro(cfg, eng, store, k.session, k.phase.req, k.phase.work).session.cache
    ensures var e := Micro(cfg, eng, store, k.session, k.phase.req, k.phase.work);
      var log' := log + Events(c, nth, e.deeds);
      && KeyExact(e.store, log', c, name, e.session.cache[name].id)
      && KeyBlamed(log', c, name, k.phase.(work := e.work))
  {
    var e := Micro(cfg, eng, store, k.session, k.phase.req, k.phase.work);
    MicroIsFolderStep(cfg, eng, store, k.session, k.phase.req, k.phase.work);
    OwnCache(cfg, eng, store, k, name);
    OwnKeySteps(store, e.store, log, c, nth, e.deeds, name, e.session.cache[name].id, k.phase, k.phase.(work := e.work));
  }

  lemma OwnKeySteps(store: Store, store': Store, log: seq<Event>, c: nat, nth: nat, deeds: seq<Deed>, name: string,
                    id: nat,
                    phase: Phase, phase': Phase)
    requires FolderStep(store, store', deeds) && phase.Executing? && phase'.Executing? && phase.work != Forgetting(name)
    requires if deeds != [] && deeds[0].Opened? && deeds[0].db == name then id == deeds[0].id
      else
        && id < store.next && KeyExact(store, log, c, name, id) && KeyBlamed(log, c, name, phase)
        && (deeds != [] && deeds[0].Deleted? ==> phase'.work == Forgetting(deeds[0].name) && phase.work.Removing?)
    ensures KeyExact(store', log + Events(c, nth, deeds), c, name, id)
    ensures KeyBlamed(log + Events(c, nth, deeds), c, name, phase')
  {
    if deeds != [] && deeds[0].Deleted? {
      OneEvent(c, nth, deeds);
      DeletingKeepsExact(store, log, Event(c, nth, deeds[0]), c, name, id, phase, phase');
    } else if deeds != [] && deeds[0].Opened? && deeds[0].db == name {
      OneEvent(c, nth, deeds);
      RenewingEvent(log, Event(c, nth, deeds[0]), c, name);
    } else {
      KeyStaysExact(store, store', log, c, nth, deeds, c, name, id, phase);
    }
  }

  lemma AdvancedStaysExact(cfg: Config, eng: Engine, s: State, o: nat)
    requires Sound(s) && Exact(s) && Enabled(cfg, eng, s, Advance(o))
    ensures Exact(Advanced(cfg, eng, s, o))
  {
    var k, t := s.conns[o], Advanced(cfg, eng, s, o);
    assert ConnSound(s.store, k);
    AdvancedKeepsSound(cfg, eng, s, o);
    MicroIsFolderStep(cfg, eng, s.store, k.session, k.phase.req, k.phase.work);
    var e := Micro(cfg, eng, s.store, k.session, k.phase.req, k.phase.work);
    var nth := |t.conns[o].seen|;
    forall c | 0 <= c < |t.conns|
      ensures ConnExact(t.store, t.log, c, t.conns[c])
    {
      assert ConnExact(s.store, s.log, c, s.conns[c]);
      assert ConnSound(t.store, t.conns[c]);
      if c != o {
        BystanderStaysExact(s.store, t.store, s.log, o, nth, e.deeds, c, s.conns[c]);
      } else {
        forall name | name in t.conns[o].session.cache
          ensures KeyExact(t.store, t.log, o, name, t.conns[o].session.cache[name].id)
          ensures KeyBlamed(t.log, o, name, t.conns[o].phase)
        {
          OwnKeyStaysExact(cfg, eng, s.store, s.log, o, nth, k, name);
        }
      }
    }
  }

  // -------------------------------------------------------------------------
  // Runs
  // -------------------------------------------------------------------------

  /** The same handles, and no deletion waiting to be forgotten. */
  predicate Calm(k: Conn, k': Conn) {
    k'.session.cache == k.session.cache
    && (k'.phase == k.phase || !(k.phase.Executing? && k.phase.work.Forgetting?))
  }

  lemma CalmStaysExact(s: State, t: State)
    requires Exact(s) && t.store == s.store && t.log == s.log && |s.conns| <= |t.conns|
    requires forall c :: 0 <= c < |s.conns| ==> Calm(s.conns[c], t.conns[c])
    requires forall c :: |s.conns| <= c < |t.conns| ==> t.conns[c].session.cache == map[]
    ensures Exact(t)
  {
    forall c | 0 <= c < |t.conns|
      ensures ConnExact(t.store, t.log, c, t.conns[c])
    {
      if c < |s.conns| {
        assert ConnExact(s.store, s.log, c, s.conns[c]);
      }
    }
  }

  lemma QuietIsCalm(cfg: Config, eng: Engine, s: State, step: Step)
    requires Sound(s) && Enabled(cfg, eng, s, step) && !step.Advance?
    ensures var t := Apply(cfg, eng, s, step);
      && t.store == s.store && t.log == s.log && |s.conns| <= |t.conns|
      && (forall c :: 0 <= c < |s.conns| ==> Calm(s.conns[c], t.conns[c]))
      && (forall c :: |s.conns| <= c < |t.conns| ==> t.conns[c].session.cache == map[])
  {
    if IsIdle(step) {
      IdleStep(cfg, eng, s, step);
    } else if step.Release? {
      ReleaseIsCalm(cfg, eng, s, step.conn);
    } else if step.Receive? {
      ReceiveIsCalm(cfg, eng, s, step.conn);
    }
  }

  lemma ReleaseIsCalm(cfg: Config, eng: Engine, s: State, c: nat)
    requires Sound(s) && Enabled(cfg, eng, s, Release(c))
    ensures var t := Released(cfg, eng, s, c);
      && t.store == s.store && t.log == s.log && |s.conns| == |t.conns|
      && (forall i :: 0 <= i < |s.conns| ==> Calm(s.conns[i], t.conns[i]))
  {}

  lemma ReceiveIsCalm(cfg: Config, eng: Engine, s: State, c: nat)
    requires Sound(s) && Enabled(cfg, eng, s, Receive(c))
    ensures var t := Received(cfg, eng, s, c);
      && t.store == s.store && t.log == s.log && |s.conns| == |t.conns|
      && (forall i :: 0 <= i < |s.conns| ==> Calm(s.conns[i], t.conns[i]))
  {}

  /** Steps outside a handler leave handles, folder and history alone. */
  lemma QuietStaysExact(cfg: Config, eng: Engine, s: State, step: Step)
    requires Sound(s) && Exact(s) && Enabled(cfg, eng, s, step) && !step.Advance?
    ensures Exact(Apply(cfg, eng, s, step))
  {
    QuietIsCalm(cfg, eng, s, step);
    CalmStaysExact(s, Apply(cfg, eng, s, step));
  }

  lemma {:induction false} RunStaysExact(cfg: Config, eng: Engine, s: State, steps: seq<Step>)
    requires Sound(s) && Exact(s) && After(cfg, eng, s, steps).Some?
    ensures Exact(After(cfg, eng, s, steps).value)
    decreases |steps|
  {
    if steps != [] {
      ApplyKeepsSound(cfg, eng, s, steps[0]);
      match steps[0] {
        case Advance(c) => AdvancedStaysExact(cfg, eng, s, c);
        case _ => QuietStaysExact(cfg, eng, s, steps[0]);
      }
      RunStaysExact(cfg, eng, Apply(cfg, eng, s, steps[0]), steps[1..]);
    }
  }

  /** In every reachable state a cached handle refers to the file the folder holds under its name
      exactly if nobody deleted that name since the handle was opened. For a plain name, outside
      the moment between a connection's own deletion and its forgetting the handle, that means
      exactly if no other connection did. */
  lemma HandlesAreFresh(cfg: Config, eng: Engine, store: Store, steps: seq<Step>, c: nat, name: string)
    requires store.Valid() && After(cfg, eng, Initial(cfg, store), steps).Some?
    requires var s := After(cfg, eng, Initial(cfg, store), steps).value;
      c < |s.conns| && name in s.conns[c].session.cache
    ensures var s := After(cfg, eng, Initial(cfg, store), steps).value;
      var k := s.conns[c];
      && (Current(s.store, name, k.session.cache[name].id) <==> !DeletedSince(s.log, c, name))
      && ('/' !in name && !(k.phase.Executing? && k.phase.work == Forgetting(name)) ==>
           (Current(s.store, name, k.session.cache[name].id) <==> !DeletedByOthers(s.log, c, name)))
  {
    RunStaysExact(cfg, eng, Initial(cfg, store), steps);
    var s := After(cfg, eng, Initial(cfg, store), steps).value;
    assert ConnExact(s.store, s.log, c, s.conns[c]);
    OthersIsSince(s.log, c, name);
  }

  /** So a statement on a plain name is about to run on the file of that name, exactly if no other
      connection deleted it since this one opened it. */
  lemma StatementsRunOnCurrentFile(cfg: Config, eng: Engine, store: Store, steps: seq<Step>, c: nat)
    requires store.Valid() && After(cfg, eng, Initial(cfg, store), steps).Some?
    requires var s := After(cfg, eng, Initial(cfg, store), steps).value;
      c < |s.conns| && s.conns[c].phase.Executing? && s.conns[c].phase.work.Running? && '/' !in s.conns[c].phase.work.db
    ensures var s := After(cfg, eng, Initial(cfg, store), steps).value;
      var work, cache := s.conns[c].phase.work, s.conns[c].session.cache;
      work.db in cache && (Current(s.store, work.db, cache[work.db].id) <==> !DeletedByOthers(s.log, c, work.db))
  {
    AfterIsSound(cfg, eng, Initial(cfg, store), steps);
    var s := After(cfg, eng, Initial(cfg, store), steps).value;
    assert ConnSound(s.store, s.conns[c]);
    HandlesAreFresh(cfg, eng, store, steps, c, s.conns[c].phase.work.db);
  }
}
