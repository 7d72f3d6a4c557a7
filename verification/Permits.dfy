/** The semaphore in every run: permits are conserved, waiters are served in turn, and none
    waits for more than a bounded number of handler steps, whatever the clients do. */
module Permits {
  import opened Basics
  import opened HandlerSpec
  import opened System

  // -------------------------------------------------------------------------
  // Sums over the connections
  // -------------------------------------------------------------------------

  function Total(f: Conn -> nat, conns: seq<Conn>): nat {
    if conns == [] then 0 else Total(f, conns[..|conns| - 1]) + f(conns[|conns| - 1])
  }

  lemma {:induction false} TotalUpdate(f: Conn -> nat, conns: seq<Conn>, c: nat, k: Conn)
    requires c < |conns|
    ensures Total(f, conns[c := k]) + f(conns[c]) == Total(f, conns) + f(k)
  {
    var last := |conns| - 1;
    if c == last {
      assert conns[c := k][..last] == conns[..last];
    } else {
      assert conns[c := k][..last] == conns[..last][c := k];
      TotalUpdate(f, conns[..last], c, k);
    }
  }

  lemma TotalSnoc(f: Conn -> nat, conns: seq<Conn>, k: Conn)
    ensures Total(f, conns + [k]) == Total(f, conns) + f(k)
  {
    assert (conns + [k])[..|conns|] == conns;
  }

  lemma {:induction false} SomeoneCounts(f: Conn -> nat, conns: seq<Conn>) returns (c: nat)
    requires Total(f, conns) > 0
    ensures c < |conns| && f(conns[c]) > 0
  {
    c := |conns| - 1;
    if f(conns[c]) == 0 {
      c := SomeoneCounts(f, conns[..c]);
    }
  }

  // -------------------------------------------------------------------------
  // Conservation
  // -------------------------------------------------------------------------

  function Held(k: Conn): nat { if k.permit then 1 else 0 }

  /** Exactly the executing connections hold a permit; exactly the waiting ones queue, and only
      when no permit is free. */
  ghost predicate Ordered(s: State) {
    && (forall c :: 0 <= c < |s.conns| ==> (s.conns[c].permit <==> s.conns[c].phase.Executing?))
    && (forall c :: 0 <= c < |s.conns| ==> (c in s.queue <==> s.conns[c].phase.Waiting?))
    && (s.queue != [] ==> s.free == 0)
  }

  function Supply(s: State): nat { s.free + Total(Held, s.conns) }

  lemma Popped(queue: seq<nat>)
    requires queue != [] && forall i, j :: 0 <= i < j < |queue| ==> queue[i] != queue[j]
    ensures forall c :: c in queue[1..] <==> c in queue && c != queue[0]
  {
    assert queue == [queue[0]] + queue[1..];
  }

  lemma ReleasedKeepsOrder(cfg: Config, eng: Engine, s: State, c: nat)
    requires Sound(s) && Ordered(s) && Enabled(cfg, eng, s, Release(c))
    ensures Ordered(Released(cfg, eng, s, c))
  {
    if s.queue != [] {
      Popped(s.queue);
    }
  }

  lemma StepKeepsOrder(cfg: Config, eng: Engine, s: State, step: Step)
    requires Sound(s) && Ordered(s) && Enabled(cfg, eng, s, step)
    ensures Ordered(Apply(cfg, eng, s, step))
  {
    if IsIdle(step) {
      IdleStep(cfg, eng, s, step);
    } else if step.Release? {
      ReleasedKeepsOrder(cfg, eng, s, step.conn);
    } else if step.Receive? {
      ReceivedKeepsOrder(cfg, eng, s, step.conn);
    }
  }

  lemma ReceivedKeepsOrder(cfg: Config, eng: Engine, s: State, c: nat)
    requires Sound(s) && Ordered(s) && Enabled(cfg, eng, s, Receive(c))
    ensures Ordered(Received(cfg, eng, s, c))
  {}

  /** A release hands the permit on or frees it. */
  lemma ReleasedKeepsSupply(cfg: Config, eng: Engine, s: State, c: nat)
    requires Sound(s) && Ordered(s) && Enabled(cfg, eng, s, Release(c))
    ensures Supply(Released(cfg, eng, s, c)) == Supply(s)
  {
    var s' := Released(cfg, eng, s, c);
    TotalUpdate(Held, s.conns, c, s'.conns[c]);
    if s.queue != [] {
      TotalUpdate(Held, s.conns[c := s'.conns[c]], s.queue[0], s'.conns[s.queue[0]]);
    }
  }

  lemma StepKeepsSupply(cfg: Config, eng: Engine, s: State, step: Step)
    requires Sound(s) && Ordered(s) && Enabled(cfg, eng, s, step)
    ensures Supply(Apply(cfg, eng, s, step)) == Supply(s)
  {
    var s' := Apply(cfg, eng, s, step);
    if IsIdle(step) {
      IdleStep(cfg, eng, s, step);
      TotalUpdate(Held, s.conns, step.conn, s'.conns[step.conn]);
    } else {
      match step
      case Advance(c) => TotalUpdate(Held, s.conns, c, s'.conns[c]);
      case Release(c) => ReleasedKeepsSupply(cfg, eng, s, c);
      case Receive(c) => TotalUpdate(Held, s.conns, c, s'.conns[c]);
      case Accept(peer) => TotalSnoc(Held, s.conns, NewConn(peer));
      case _ =>
    }
  }

  lemma {:induction false} RunConserves(cfg: Config, eng: Engine, s: State, steps: seq<Step>)
    requires Sound(s) && Ordered(s) && After(cfg, eng, s, steps).Some?
    ensures var s' := After(cfg, eng, s, steps).value;
      Sound(s') && Ordered(s') && Supply(s') == Supply(s)
    decreases |steps|
  {
    if steps != [] {
      ApplyKeepsSound(cfg, eng, s, steps[0]);
      StepKeepsOrder(cfg, eng, s, steps[0]);
      StepKeepsSupply(cfg, eng, s, steps[0]);
      RunConserves(cfg, eng, Apply(cfg, eng, s, steps[0]), steps[1..]);
    }
  }

  /** In every reachable state: free permits plus holders make `max(workers, 1)`, a connection
      holds a permit exactly while it executes, so none while it reads or writes. */
  lemma PermitsAreConserved(cfg: Config, eng: Engine, store: Store, steps: seq<Step>)
    requires store.Valid() && After(cfg, eng, Initial(cfg, store), steps).Some?
    ensures var s := After(cfg, eng, Initial(cfg, store), steps).value;
      && Supply(s) == (if cfg.workers == 0 then 1 else cfg.workers)
      && (forall c :: 0 <= c < |s.conns| ==> (s.conns[c].permit <==> s.conns[c].phase.Executing?))
      && (forall c :: 0 <= c < |s.conns| ==> (s.conns[c].phase.Waiting? <==> c in s.queue))
      && (forall i, j :: 0 <= i < j < |s.queue| ==> s.queue[i] != s.queue[j])
  {
    RunConserves(cfg, eng, Initial(cfg, store), steps);
  }

  // -------------------------------------------------------------------------
  // Progress
  // -------------------------------------------------------------------------

  predicate IsHandlerStep(step: Step) { step.Advance? || step.Release? }

  /** Whoever waits, some handler can take its next step: nothing a client does or leaves undone
      can stop the queue, and it moves even with no workers configured. */
  lemma NeverStuck(cfg: Config, eng: Engine, s: State) returns (step: Step)
    requires Sound(s) && Ordered(s) && Supply(s) == Permits(cfg) && s.queue != []
    ensures IsHandlerStep(step) && Enabled(cfg, eng, s, step)
  {
    var c := SomeoneCounts(Held, s.conns);
    step := if s.conns[c].phase.work.Finished? then Release(c) else Advance(c);
  }

  const MOST_STEPS := 4

  /** Handler steps a call still needs at most, its return included. */
  function Rank(work: Work): (n: nat)
    ensures 1 <= n <= MOST_STEPS
  {
    match work
    case Begin => 4
    case Opening(_, _, _) => 3
    case Removing(_) => 3
    case Finished(_) => 1
    case _ => 2
  }

  function Left(k: Conn): nat { if k.phase.Executing? then Rank(k.phase.work) else 0 }

  function Releases(steps: seq<Step>): nat {
    if steps == [] then 0 else (if steps[0].Release? then 1 else 0) + Releases(steps[1..])
  }

  function HandlerSteps(steps: seq<Step>): nat {
    if steps == [] then 0 else (if IsHandlerStep(steps[0]) then 1 else 0) + HandlerSteps(steps[1..])
  }

  lemma MicroDescends(cfg: Config, eng: Engine, store: Store, session: Session, req: string, work: Work)
    requires store.Valid() && CacheValid(store, session.cache) && WorkValid(session, work) && !work.Finished?
    ensures Rank(Micro(cfg, eng, store, session, req, work).work) < Rank(work)
  {}

  lemma AdvanceDescends(cfg: Config, eng: Engine, s: State, c: nat)
    requires Sound(s) && Enabled(cfg, eng, s, Advance(c))
    ensures Total(Left, Advanced(cfg, eng, s, c).conns) < Total(Left, s.conns)
  {
    var k := s.conns[c];
    assert ConnSound(s.store, k);
    MicroDescends(cfg, eng, s.store, k.session, k.phase.req, k.phase.work);
    TotalUpdate(Left, s.conns, c, Advanced(cfg, eng, s, c).conns[c]);
  }

  lemma ReleaseRefills(cfg: Config, eng: Engine, s: State, c: nat)
    requires Sound(s) && Enabled(cfg, eng, s, Release(c)) && s.queue != []
    ensures Total(Left, Released(cfg, eng, s, c).conns) == Total(Left, s.conns) - 1 + MOST_STEPS
  {
    var s' := Released(cfg, eng, s, c);
    TotalUpdate(Left, s.conns, c, s'.conns[c]);
    TotalUpdate(Left, s.conns[c := s'.conns[c]], s.queue[0], s'.conns[s.queue[0]]);
  }

  lemma IdleKeepsLeft(s: State, c: nat, k: Conn)
    requires c < |s.conns| && Idles(s.conns[c], k)
    ensures Total(Left, s.conns[c := k]) == Total(Left, s.conns)
  {
    TotalUpdate(Left, s.conns, c, k);
  }

  lemma QueuedKeepsLeft(cfg: Config, eng: Engine, s: State, c: nat)
    requires Sound(s) && Ordered(s) && s.queue != [] && Enabled(cfg, eng, s, Receive(c))
    ensures Total(Left, Received(cfg, eng, s, c).conns) == Total(Left, s.conns)
  {
    TotalUpdate(Left, s.conns, c, Received(cfg, eng, s, c).conns[c]);
  }

  lemma QuietKeepsLeft(cfg: Config, eng: Engine, s: State, step: Step)
    requires Sound(s) && Ordered(s) && s.queue != [] && Enabled(cfg, eng, s, step) && !IsHandlerStep(step)
    ensures Total(Left, Apply(cfg, eng, s, step).conns) == Total(Left, s.conns)
  {
    var s' := Apply(cfg, eng, s, step);
    if IsIdle(step) {
      IdleStep(cfg, eng, s, step);
      IdleKeepsLeft(s, step.conn, s'.conns[step.conn]);
    } else {
      match step
      case Accept(peer) => TotalSnoc(Left, s.conns, NewConn(peer));
      case Receive(c) => QueuedKeepsLeft(cfg, eng, s, c);
      case _ =>
    }
  }

  /** While somebody waits, a step uses up handler work, except that a release starts the head
      of the queue. */
  lemma StepWork(cfg: Config, eng: Engine, s: State, step: Step)
    requires Sound(s) && Ordered(s) && s.queue != [] && Enabled(cfg, eng, s, step)
    ensures Total(Left, Apply(cfg, eng, s, step).conns) + (if IsHandlerStep(step) then 1 else 0)
      <= Total(Left, s.conns) + (if step.Release? then MOST_STEPS else 0)
  {
    match step
    case Advance(c) => AdvanceDescends(cfg, eng, s, c);
    case Release(c) => ReleaseRefills(cfg, eng, s, c);
    case _ => QuietKeepsLeft(cfg, eng, s, step);
  }

  /** Nobody overtakes: a release removes the head of the queue, every other step at most appends. */
  lemma StepQueue(cfg: Config, eng: Engine, s: State, step: Step)
    requires Sound(s) && Ordered(s) && s.queue != [] && Enabled(cfg, eng, s, step)
    ensures var s' := Apply(cfg, eng, s, step);
      if step.Release? then s'.queue == s.queue[1..] else s.queue <= s'.queue
  {}

  /** Still waiting, with perhaps more bytes from its client. */
  predicate StillWaits(k: Conn, k': Conn) {
    && k' == k.(line := k'.line)
    && k'.line.taken == k.line.taken && k'.line.answered == k.line.answered && k'.line.sent == k.line.sent
  }

  /** A waiting connection is left alone until its turn. */
  lemma StepWaiter(cfg: Config, eng: Engine, s: State, step: Step, k: nat)
    requires Sound(s) && k < |s.queue| && Enabled(cfg, eng, s, step) && (step.Release? ==> k > 0)
    ensures |Apply(cfg, eng, s, step).conns| >= |s.conns|
    ensures StillWaits(s.conns[s.queue[k]], Apply(cfg, eng, s, step).conns[s.queue[k]])
  {}

  /** At its turn it starts on the request it waited with, holding a permit. */
  lemma StepStarts(cfg: Config, eng: Engine, s: State, c: nat)
    requires Sound(s) && s.queue != [] && Enabled(cfg, eng, s, Release(c))
    ensures |Released(cfg, eng, s, c).conns| == |s.conns|
    ensures Released(cfg, eng, s, c).conns[s.queue[0]] == Started(s.conns[s.queue[0]], s.conns[s.queue[0]].phase.req)
  {}

  /** The place in the queue after one more step. */
  function Place(step: Step, k: nat): nat { if step.Release? && k > 0 then k - 1 else k }

  lemma StepPlace(cfg: Config, eng: Engine, s: State, step: Step, k: nat)
    requires Sound(s) && Ordered(s) && k < |s.queue| && Enabled(cfg, eng, s, step) && (step.Release? ==> k > 0)
    ensures var t := Apply(cfg, eng, s, step);
      && Sound(t) && Ordered(t)
      && Place(step, k) < |t.queue| && t.queue[Place(step, k)] == s.queue[k]
  {
    ApplyKeepsSound(cfg, eng, s, step);
    StepKeepsOrder(cfg, eng, s, step);
    StepQueue(cfg, eng, s, step);
  }

  /** From `s` to `s'` the connection at place `k` has waited through `releases` releases: it is
      that much further ahead, and untouched but for bytes that arrived. */
  ghost predicate InTurn(s: State, s': State, k: nat, releases: nat)
    requires k < |s.queue|
  {
    && releases <= k && k - releases < |s'.queue| && s'.queue[k - releases] == s.queue[k]
    && s.queue[k] < |s.conns| && s.queue[k] < |s'.conns| && StillWaits(s.conns[s.queue[k]], s'.conns[s.queue[k]])
  }

  lemma StepInTurn(cfg: Config, eng: Engine, s: State, step: Step, k: nat)
    requires Sound(s) && Ordered(s) && k < |s.queue| && Enabled(cfg, eng, s, step) && (step.Release? ==> k > 0)
    ensures var t := Apply(cfg, eng, s, step);
      && Sound(t) && Ordered(t) && Place(step, k) < |t.queue|
      && InTurn(s, t, k, k - Place(step, k))
  {
    StepPlace(cfg, eng, s, step, k);
    StepWaiter(cfg, eng, s, step, k);
  }

  lemma InTurnTwice(s: State, t: State, s': State, k: nat, place: nat, releases: nat)
    requires k < |s.queue| && place <= k && InTurn(s, t, k, k - place)
    requires place < |t.queue| && InTurn(t, s', place, releases)
    ensures InTurn(s, s', k, k - place + releases)
  {}

  /** A run from a sound state in which `k` is a place in the queue and at most `k` releases happen. */
  ghost predicate KeepsWaiting(cfg: Config, eng: Engine, s: State, steps: seq<Step>, s': State, k: nat) {
    && Sound(s) && Ordered(s) && k < |s.queue| && After(cfg, eng, s, steps) == Some(s')
    && Releases(steps) <= k
  }

  lemma FirstInTurn(cfg: Config, eng: Engine, s: State, steps: seq<Step>, s': State, k: nat)
    returns (t: State, place: nat)
    requires KeepsWaiting(cfg, eng, s, steps, s', k) && steps != []
    ensures place <= k && KeepsWaiting(cfg, eng, t, steps[1..], s', place)
    ensures InTurn(s, t, k, k - place) && Releases(steps) == k - place + Releases(steps[1..])
  {
    t, place := Apply(cfg, eng, s, steps[0]), Place(steps[0], k);
    StepInTurn(cfg, eng, s, steps[0], k);
  }

  lemma NoneInTurn(cfg: Config, eng: Engine, s: State, s': State, k: nat)
    requires KeepsWaiting(cfg, eng, s, [], s', k)
    ensures InTurn(s, s', k, 0)
  {}

  /** Along any run a waiting connection's place is its starting place less the releases so far. */
  lemma {:induction false} ServedInTurn(cfg: Config, eng: Engine, s: State, steps: seq<Step>, s': State, k: nat)
    requires KeepsWaiting(cfg, eng, s, steps, s', k)
    ensures InTurn(s, s', k, Releases(steps))
    decreases |steps|
  {
    if steps == [] {
      NoneInTurn(cfg, eng, s, s', k);
    } else {
      var t, place := FirstInTurn(cfg, eng, s, steps, s', k);
      ServedInTurn(cfg, eng, t, steps[1..], s', place);
      InTurnTwice(s, t, s', k, place, Releases(steps[1..]));
    }
  }

  /** Meanwhile handler steps are paid for by the work there was and by what each release starts. */
  lemma {:induction false} WorkIsPaid(cfg: Config, eng: Engine, s: State, steps: seq<Step>, k: nat)
    requires Sound(s) && Ordered(s) && k < |s.queue| && After(cfg, eng, s, steps).Some?
    requires Releases(steps) <= k
    ensures HandlerSteps(steps) + Total(Left, After(cfg, eng, s, steps).value.conns)
      <= Total(Left, s.conns) + MOST_STEPS * Releases(steps)
    decreases |steps|
  {
    if steps != [] {
      StepPlace(cfg, eng, s, steps[0], k);
      StepWork(cfg, eng, s, steps[0]);
      WorkIsPaid(cfg, eng, Apply(cfg, eng, s, steps[0]), steps[1..], Place(steps[0], k));
    }
  }

  lemma {:induction false} WorkBound(conns: seq<Conn>)
    requires forall c :: 0 <= c < |conns| ==> (conns[c].permit <==> conns[c].phase.Executing?)
    ensures Total(Left, conns) <= MOST_STEPS * Total(Held, conns)
  {
    if conns != [] {
      WorkBound(conns[..|conns| - 1]);
    }
  }

  /** The connection that queued as `k` now executes the request it queued with. */
  predicate Granted(k: Conn, k': Conn)
    requires k.phase.Waiting?
  {
    k' == Started(k, k.phase.req).(line := k'.line) && k'.line.taken == k.line.taken
  }

  /** After these steps, `k + 1` of them releases, the connection at place `k` has started. */
  ghost predicate GrantedBy(cfg: Config, eng: Engine, s: State, front: seq<Step>, k: nat) {
    && Sound(s) && k < |s.queue| && Releases(front) == k + 1
    && var end := After(cfg, eng, s, front);
       end.Some? && s.queue[k] < |end.value.conns| && Granted(s.conns[s.queue[k]], end.value.conns[s.queue[k]])
  }

  /** The head of the queue starts with the next release. */
  lemma GrantedNow(cfg: Config, eng: Engine, s: State, step: Step)
    requires Sound(s) && s.queue != [] && step.Release? && Enabled(cfg, eng, s, step)
    ensures GrantedBy(cfg, eng, s, [step], 0)
  {
    StepStarts(cfg, eng, s, step.conn);
    ApplyKeepsSound(cfg, eng, s, step);
    assert [step][1..] == [];
  }

  /** What is granted to a waiter after the first step is granted to it from the start. */
  lemma GrantedLater(cfg: Config, eng: Engine, s: State, step: Step, front: seq<Step>, k: nat)
    requires Sound(s) && Ordered(s) && k < |s.queue| && Enabled(cfg, eng, s, step) && !(step.Release? && k == 0)
    requires GrantedBy(cfg, eng, Apply(cfg, eng, s, step), front, Place(step, k))
    ensures GrantedBy(cfg, eng, s, [step] + front, k)
  {
    StepPlace(cfg, eng, s, step, k);
    StepWaiter(cfg, eng, s, step, k);
    assert ([step] + front)[1..] == front;
  }

  /** Enough releases are still to come. */
  ghost predicate Coming(cfg: Config, eng: Engine, s: State, steps: seq<Step>, k: nat) {
    Sound(s) && Ordered(s) && k < |s.queue| && After(cfg, eng, s, steps).Some? && Releases(steps) > k
  }

  lemma ComingNext(cfg: Config, eng: Engine, s: State, steps: seq<Step>, k: nat)
    requires Coming(cfg, eng, s, steps, k)
    ensures steps != [] && Enabled(cfg, eng, s, steps[0])
    ensures !(steps[0].Release? && k == 0) ==>
      Coming(cfg, eng, Apply(cfg, eng, s, steps[0]), steps[1..], Place(steps[0], k))
  {
    if !(steps[0].Release? && k == 0) {
      StepPlace(cfg, eng, s, steps[0], k);
    }
  }

  /** Progress with a measure: a request waiting at place `k` has its permit after exactly `k + 1`
      releases, and any run with more than `4 * (max(workers, 1) + k)` handler steps contains them. */
  lemma {:induction false} GrantedAfterReleases(cfg: Config, eng: Engine, s: State, steps: seq<Step>, k: nat)
    returns (n: nat)
    requires Coming(cfg, eng, s, steps, k)
    ensures n <= |steps| && GrantedBy(cfg, eng, s, steps[..n], k)
    decreases |steps|
  {
    ComingNext(cfg, eng, s, steps, k);
    var step, rest := steps[0], steps[1..];
    if step.Release? && k == 0 {
      GrantedNow(cfg, eng, s, step);
      n := 1;
      assert steps[..1] == [step];
    } else {
      var m := GrantedAfterReleases(cfg, eng, Apply(cfg, eng, s, step), rest, Place(step, k));
      GrantedLater(cfg, eng, s, step, rest[..m], k);
      n := m + 1;
      assert steps[..n] == [step] + rest[..m];
    }
  }

  lemma GrantedAfterWork(cfg: Config, eng: Engine, s: State, steps: seq<Step>, k: nat) returns (n: nat)
    requires Sound(s) && Ordered(s) && Supply(s) == Permits(cfg)
    requires k < |s.queue| && After(cfg, eng, s, steps).Some?
    requires HandlerSteps(steps) > MOST_STEPS * (Permits(cfg) + k)
    ensures n <= |steps| && GrantedBy(cfg, eng, s, steps[..n], k)
  {
    if Releases(steps) <= k {
      WorkIsPaid(cfg, eng, s, steps, k);
      WorkBound(s.conns);
    }
    n := GrantedAfterReleases(cfg, eng, s, steps, k);
  }
}
