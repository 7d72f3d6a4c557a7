/** The history is true: whatever it records of a connection happened at some step of the run, on the
    folder and the handle as they then were. */
module History {
  import opened Basics
  import opened HandlerSpec
  import opened System

  /** The deed is what a handler's step does with this folder and session. */
  ghost predicate TrueOf(eng: Engine, store: Store, session: Session, deed: Deed) {
    && store.Valid()
    && match deed
       case Opened(db, id) =>
         var (_, handles, failure) := GetHandle(eng, store, session.cache, db);
         db !in session.cache && failure.None? && db in handles && handles[db].id == id
       case Refused(db, error) => GetHandle(eng, store, session.cache, db).2 == Some(error)
       case Ran(db, id, query, outcome) =>
         && db in session.cache && session.cache[db].id == id
         && eng.exec(store, session.cache[db], query).2 == outcome
       case Listed(names) => names == eng.listing(store.files.Keys)
       case Deleted(name) => '/' !in name && name in store.files && eng.canRemove(name)
       case Kept(name) => !('/' !in name && name in store.files && eng.canRemove(name))
  }

  lemma MicroIsTrue(cfg: Config, eng: Engine, store: Store, session: Session, req: string, work: Work)
    requires store.Valid() && CacheValid(store, session.cache) && WorkValid(session, work) && !work.Finished?
    ensures forall deed :: deed in Micro(cfg, eng, store, session, req, work).deeds ==> TrueOf(eng, store, session, deed)
  {
    match work
    case Opening(db, _, _) => GetHandleKeepsValid(eng, store, session.cache, db);
    case _ =>
  }

  /** Step `n` of the run is the one that did it. */
  ghost predicate HappenedAt(cfg: Config, eng: Engine, s: State, steps: seq<Step>, e: Event, n: nat)
    requires Sound(s)
  {
    && n < |steps| && steps[n] == Advance(e.conn)
    && var before := After(cfg, eng, s, steps[..n]);
    && before.Some? && e.conn < |before.value.conns|
    && TrueOf(eng, before.value.store, before.value.conns[e.conn].session, e.deed)
  }

  lemma StepIsTrue(cfg: Config, eng: Engine, s: State, step: Step)
    requires Sound(s) && Enabled(cfg, eng, s, step)
    ensures s.log <= Apply(cfg, eng, s, step).log
    ensures forall i :: |s.log| <= i < |Apply(cfg, eng, s, step).log| ==>
      var e := Apply(cfg, eng, s, step).log[i];
      step == Advance(e.conn) && e.conn < |s.conns| && TrueOf(eng, s.store, s.conns[e.conn].session, e.deed)
  {
    if step.Advance? {
      var k := s.conns[step.conn];
      assert ConnSound(s.store, k);
      MicroIsTrue(cfg, eng, s.store, k.session, k.phase.req, k.phase.work);
    } else if IsIdle(step) {
      IdleStep(cfg, eng, s, step);
    }
  }

  lemma HappenedLater(cfg: Config, eng: Engine, s: State, step: Step, rest: seq<Step>, e: Event, n: nat)
    requires Sound(s) && Enabled(cfg, eng, s, step) && Sound(Apply(cfg, eng, s, step))
    requires HappenedAt(cfg, eng, Apply(cfg, eng, s, step), rest, e, n)
    ensures HappenedAt(cfg, eng, s, [step] + rest, e, n + 1)
  {
    var steps := [step] + rest;
    AfterFirst(cfg, eng, s, steps, n + 1);
    assert steps[1..] == rest;
  }

  /** Whatever a run adds to the history happened at one of its steps. */
  lemma {:induction false} HistoryIsTrue(cfg: Config, eng: Engine, s: State, steps: seq<Step>, i: nat) returns (n: nat)
    requires Sound(s) && After(cfg, eng, s, steps).Some? && |s.log| <= i < |After(cfg, eng, s, steps).value.log|
    ensures HappenedAt(cfg, eng, s, steps, After(cfg, eng, s, steps).value.log[i], n)
    decreases |steps|
  {
    var step, rest := steps[0], steps[1..];
    var t := Apply(cfg, eng, s, step);
    ApplyKeepsSound(cfg, eng, s, step);
    StepIsTrue(cfg, eng, s, step);
    HeadTail(steps);
    if i < |t.log| {
      n := 0;
      LogKept(cfg, eng, t, rest);
      assert steps[..0] == [];
    } else {
      var m := HistoryIsTrue(cfg, eng, t, rest, i);
      n := m + 1;
      HappenedLater(cfg, eng, s, step, rest, After(cfg, eng, s, steps).value.log[i], m);
    }
  }

  lemma {:induction false} LogKept(cfg: Config, eng: Engine, s: State, steps: seq<Step>)
    requires Sound(s) && After(cfg, eng, s, steps).Some?
    ensures s.log <= After(cfg, eng, s, steps).value.log
    decreases |steps|
  {
    if steps != [] {
      ApplyKeepsSound(cfg, eng, s, steps[0]);
      StepIsTrue(cfg, eng, s, steps[0]);
      LogKept(cfg, eng, Apply(cfg, eng, s, steps[0]), steps[1..]);
    }
  }
}
