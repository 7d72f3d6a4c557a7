/** Authentication over whole runs: whatever the interleaving, what a connection does to the
    folder is decided by its own requests alone. */
module Gating {
  import opened HandlerSpec
  import opened System
  import Cidr

  /** Some request in the list carried the password. */
  ghost predicate Knows(cfg: Config, eng: Engine, seen: seq<string>) {
    exists i :: 0 <= i < |seen| && CarriesPassword(cfg, eng, seen[i])
  }

  lemma KnowsSnoc(cfg: Config, eng: Engine, seen: seq<string>, req: string)
    ensures Knows(cfg, eng, seen + [req]) <==> Knows(cfg, eng, seen) || CarriesPassword(cfg, eng, req)
  {
    assert forall i :: 0 <= i < |seen| ==> (seen + [req])[i] == seen[i];
    assert (seen + [req])[|seen|] == req;
  }

  /** What the gate lets a request do after the given earlier requests on its connection. */
  ghost function Verdict(cfg: Config, eng: Engine, before: seq<string>, req: string): Action {
    Gate(cfg, eng, Knows(cfg, eng, before), req).1
  }

  /** What the gate lets the `nth` request do. */
  ghost function NthVerdict(cfg: Config, eng: Engine, seen: seq<string>, nth: nat): Action
    requires 1 <= nth <= |seen|
  {
    Verdict(cfg, eng, seen[..nth - 1], seen[nth - 1])
  }

  predicate Allows(action: Action, deed: Deed) {
    match deed
    case Opened(db, _) => action.DoQuery? && action.db == db
    case Refused(db, _) => action.DoQuery? && action.db == db
    case Ran(db, _, query, _) => action.DoQuery? && action.db == db && action.query == query
    case Listed(_) => action.DoList?
    case Deleted(name) => action == DoDelete(name)
    case Kept(name) => action == DoDelete(name)
  }

  predicate Carries(action: Action, work: Work) {
    match work
    case Opening(db, query, json) => action == DoQuery(db, query, json)
    case Running(db, query, json) => action == DoQuery(db, query, json)
    case Listing => action == DoList
    case Removing(db) => action == DoDelete(db)
    case Forgetting(db) => action == DoDelete(db)
    case _ => true
  }

  ghost predicate EventGated(cfg: Config, eng: Engine, seen: seq<string>, e: Event) {
    1 <= e.nth <= |seen| && Allows(NthVerdict(cfg, eng, seen, e.nth), e.deed)
  }

  ghost predicate ConnGated(cfg: Config, eng: Engine, k: Conn) {
    && Cidr.IsIpAllowed(cfg.whitelist, k.peer)
    && (k.session.authenticated <==> Knows(cfg, eng, k.seen))
    && (k.phase.Executing? && !k.phase.work.Begin? ==>
        |k.seen| > 0 && Carries(NthVerdict(cfg, eng, k.seen, |k.seen|), k.phase.work))
  }

  ghost predicate LogGated(cfg: Config, eng: Engine, conns: seq<Conn>, log: seq<Event>) {
    forall i :: 0 <= i < |log| ==> log[i].conn < |conns| && EventGated(cfg, eng, conns[log[i].conn].seen, log[i])
  }

  ghost predicate Gated(cfg: Config, eng: Engine, s: State) {
    && (forall c :: 0 <= c < |s.conns| ==> ConnGated(cfg, eng, s.conns[c]))
    && LogGated(cfg, eng, s.conns, s.log)
  }

  // -------------------------------------------------------------------------
  // One step
  // -------------------------------------------------------------------------

  lemma EventStaysGated(cfg: Config, eng: Engine, seen: seq<string>, more: seq<string>, e: Event)
    requires EventGated(cfg, eng, seen, e) && seen <= more
    ensures EventGated(cfg, eng, more, e)
  {
    assert more[..e.nth - 1] == seen[..e.nth - 1];
  }

  /** Connections only come, and their requests only accumulate. */
  ghost predicate Accumulates(conns: seq<Conn>, conns': seq<Conn>) {
    && |conns| <= |conns'|
    && forall c :: 0 <= c < |conns| ==>
         conns[c].seen <= conns'[c].seen && (conns[c].session.authenticated ==> conns'[c].session.authenticated)
  }

  lemma LogStaysGated(cfg: Config, eng: Engine, conns: seq<Conn>, conns': seq<Conn>, log: seq<Event>)
    requires LogGated(cfg, eng, conns, log) && Accumulates(conns, conns')
    ensures LogGated(cfg, eng, conns', log)
  {
    forall i | 0 <= i < |log|
      ensures log[i].conn < |conns'| && EventGated(cfg, eng, conns'[log[i].conn].seen, log[i])
    {
      EventStaysGated(cfg, eng, conns[log[i].conn].seen, conns'[log[i].conn].seen, log[i]);
    }
  }

  /** A handler's step keeps to the verdict on its request, and so does what it does. */
  lemma MicroStaysGated(cfg: Config, eng: Engine, store: Store, k: Conn)
    requires store.Valid() && ConnSound(store, k) && ConnGated(cfg, eng, k)
    requires k.phase.Executing? && !k.phase.work.Finished?
    ensures var e := Micro(cfg, eng, store, k.session, k.phase.req, k.phase.work);
      var seen := if k.phase.work.Begin? then k.seen + [k.phase.req] else k.seen;
      && |seen| > 0
      && (e.session.authenticated <==> Knows(cfg, eng, seen))
      && (k.session.authenticated ==> e.session.authenticated)
      && Carries(NthVerdict(cfg, eng, seen, |seen|), e.work) && !e.work.Begin?
      && (forall i :: 0 <= i < |e.deeds| ==> Allows(NthVerdict(cfg, eng, seen, |seen|), e.deeds[i]))
  {
    if k.phase.work.Begin? {
      KnowsSnoc(cfg, eng, k.seen, k.phase.req);
      assert (k.seen + [k.phase.req])[..|k.seen|] == k.seen;
    }
  }

  lemma AdvancedStaysGated(cfg: Config, eng: Engine, s: State, c: nat)
    requires Sound(s) && Gated(cfg, eng, s) && Enabled(cfg, eng, s, Advance(c))
    ensures Gated(cfg, eng, Advanced(cfg, eng, s, c)) && Accumulates(s.conns, Advanced(cfg, eng, s, c).conns)
  {
    var k, s' := s.conns[c], Advanced(cfg, eng, s, c);
    assert ConnSound(s.store, k) && ConnGated(cfg, eng, k);
    MicroStaysGated(cfg, eng, s.store, k);
    LogStaysGated(cfg, eng, s.conns, s'.conns, s.log);
  }

  /** The same requests seen, the same flag and peer, and no handler in the middle of one. */
  ghost predicate Alike(k: Conn, k': Conn) {
    k'.seen == k.seen && k'.session == k.session && k'.peer == k.peer
    && (k'.phase.Executing? ==> k'.phase.work.Begin? || k'.phase == k.phase)
  }

  lemma AlikeStaysGated(cfg: Config, eng: Engine, s: State, s': State)
    requires Gated(cfg, eng, s) && s'.log == s.log && |s'.conns| == |s.conns|
    requires forall c :: 0 <= c < |s.conns| ==> Alike(s.conns[c], s'.conns[c])
    ensures Gated(cfg, eng, s') && Accumulates(s.conns, s'.conns)
  {
    LogStaysGated(cfg, eng, s.conns, s'.conns, s.log);
  }

  lemma AcceptStaysGated(cfg: Config, eng: Engine, s: State, peer: Cidr.Ip)
    requires Sound(s) && Gated(cfg, eng, s) && Enabled(cfg, eng, s, Accept(peer))
    ensures Gated(cfg, eng, Apply(cfg, eng, s, Accept(peer))) && Accumulates(s.conns, Apply(cfg, eng, s, Accept(peer)).conns)
  {
    LogStaysGated(cfg, eng, s.conns, Apply(cfg, eng, s, Accept(peer)).conns, s.log);
  }

  lemma OtherIsAlike(cfg: Config, eng: Engine, s: State, step: Step)
    requires Sound(s) && Enabled(cfg, eng, s, step) && !step.Advance? && !step.Accept?
    ensures var s' := Apply(cfg, eng, s, step);
      && s'.log == s.log && |s'.conns| == |s.conns|
      && forall c :: 0 <= c < |s.conns| ==> Alike(s.conns[c], s'.conns[c])
  {
    if IsIdle(step) {
      IdleStep(cfg, eng, s, step);
    }
  }

  lemma OtherStaysGated(cfg: Config, eng: Engine, s: State, step: Step)
    requires Sound(s) && Gated(cfg, eng, s) && Enabled(cfg, eng, s, step) && !step.Advance? && !step.Accept?
    ensures Gated(cfg, eng, Apply(cfg, eng, s, step)) && Accumulates(s.conns, Apply(cfg, eng, s, step).conns)
  {
    OtherIsAlike(cfg, eng, s, step);
    AlikeStaysGated(cfg, eng, s, Apply(cfg, eng, s, step));
  }

  lemma StepStaysGated(cfg: Config, eng: Engine, s: State, step: Step)
    requires Sound(s) && Gated(cfg, eng, s) && Enabled(cfg, eng, s, step)
    ensures Gated(cfg, eng, Apply(cfg, eng, s, step)) && Accumulates(s.conns, Apply(cfg, eng, s, step).conns)
  {
    match step
    case Advance(c) => AdvancedStaysGated(cfg, eng, s, c);
    case Accept(peer) => AcceptStaysGated(cfg, eng, s, peer);
    case _ => OtherStaysGated(cfg, eng, s, step);
  }

  // -------------------------------------------------------------------------
  // Runs
  // -------------------------------------------------------------------------

  lemma {:induction false} RunStaysGated(cfg: Config, eng: Engine, s: State, steps: seq<Step>)
    requires Sound(s) && Gated(cfg, eng, s) && After(cfg, eng, s, steps).Some?
    ensures Gated(cfg, eng, After(cfg, eng, s, steps).value)
    ensures Accumulates(s.conns, After(cfg, eng, s, steps).value.conns)
    decreases |steps|
  {
    if steps != [] {
      ApplyKeepsSound(cfg, eng, s, steps[0]);
      StepStaysGated(cfg, eng, s, steps[0]);
      RunStaysGated(cfg, eng, Apply(cfg, eng, s, steps[0]), steps[1..]);
    }
  }

  /** The request that asked for the deed did not itself carry the password, but an earlier one
      on its connection did. */
  ghost predicate Earned(cfg: Config, eng: Engine, seen: seq<string>, e: Event)
    requires 1 <= e.nth <= |seen|
  {
    Knows(cfg, eng, seen[..e.nth - 1]) && !CarriesPassword(cfg, eng, seen[e.nth - 1])
  }

  lemma GatedIsEarned(cfg: Config, eng: Engine, seen: seq<string>, e: Event)
    requires EventGated(cfg, eng, seen, e) && cfg.auth != ""
    ensures Earned(cfg, eng, seen, e)
  {}

  /** Along every run, between any two of its states: once authenticated, a connection stays so,
      and its requests only accumulate. */
  lemma FlagNeverFallsBack(cfg: Config, eng: Engine, store: Store, steps: seq<Step>, n: nat)
    requires store.Valid() && After(cfg, eng, Initial(cfg, store), steps).Some? && n <= |steps|
    ensures After(cfg, eng, Initial(cfg, store), steps[..n]).Some?
    ensures Accumulates(After(cfg, eng, Initial(cfg, store), steps[..n]).value.conns,
                  After(cfg, eng, Initial(cfg, store), steps).value.conns)
  {
    AfterPrefix(cfg, eng, Initial(cfg, store), steps, n);
    RunStaysGated(cfg, eng, Initial(cfg, store), steps[..n]);
    RunStaysGated(cfg, eng, After(cfg, eng, Initial(cfg, store), steps[..n]).value, steps[n..]);
  }

  /** In every reachable state, with a password configured: whatever a connection did to the
      folder was asked for by one of its own requests, which did not carry the password itself,
      after an earlier request on that same connection that did. The flag says whether any
      request so far carried it. Without a password only the first half remains. */
  lemma OnlyAfterThePassword(cfg: Config, eng: Engine, store: Store, steps: seq<Step>)
    requires store.Valid() && After(cfg, eng, Initial(cfg, store), steps).Some?
    ensures var s := After(cfg, eng, Initial(cfg, store), steps).value;
      && (forall c :: 0 <= c < |s.conns| ==>
           Cidr.IsIpAllowed(cfg.whitelist, s.conns[c].peer)
           && (s.conns[c].session.authenticated <==> Knows(cfg, eng, s.conns[c].seen)))
      && (forall i :: 0 <= i < |s.log| ==>
           var e := s.log[i];
           && e.conn < |s.conns| && 1 <= e.nth <= |s.conns[e.conn].seen|
           && var seen := s.conns[e.conn].seen;
           && Allows(NthVerdict(cfg, eng, seen, e.nth), e.deed)
           && (cfg.auth != "" ==> Earned(cfg, eng, seen, e)))
  {
    RunStaysGated(cfg, eng, Initial(cfg, store), steps);
    var s := After(cfg, eng, Initial(cfg, store), steps).value;
    if cfg.auth != "" {
      forall i | 0 <= i < |s.log|
        ensures EventGated(cfg, eng, s.conns[s.log[i].conn].seen, s.log[i])
        ensures Earned(cfg, eng, s.conns[s.log[i].conn].seen, s.log[i])
      {
        GatedIsEarned(cfg, eng, s.conns[s.log[i].conn].seen, s.log[i]);
      }
    }
  }
}
