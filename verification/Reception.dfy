/** What the server can always do next: whatever its state, it takes in peers, bytes and requests, goes
    on with every handler, and can bring every request that has arrived to its answer. */
module Reception {
  import opened Basics
  import opened HandlerSpec
  import opened Framing
  import opened System
  import opened Permits
  import Cidr
  import Uninterrupted

  ghost predicate Reached(cfg: Config, eng: Engine, store: Store, steps: seq<Step>, s: State) {
    store.Valid() && After(cfg, eng, Initial(cfg, store), steps) == Some(s)
  }

  /** The run can be extended by a step that leads to `t`. */
  ghost predicate Goes(cfg: Config, eng: Engine, store: Store, steps: seq<Step>, step: Step, t: State) {
    Reached(cfg, eng, store, steps + [step], t)
  }

  /** Only connection `c` has changed, to `k`, and perhaps the permits and the queue. */
  ghost predicate Only(s: State, t: State, c: nat, k: Conn) {
    && c < |s.conns| && t.conns == s.conns[c := k]
    && t.store == s.store && t.log == s.log && t.accepting == s.accepting
  }

  lemma ReachedIsSound(cfg: Config, eng: Engine, store: Store, steps: seq<Step>, s: State)
    requires Reached(cfg, eng, store, steps, s)
    ensures Sound(s) && Ordered(s) && Supply(s) == System.Permits(cfg)
  {
    RunConserves(cfg, eng, Initial(cfg, store), steps);
  }

  lemma OneMore(cfg: Config, eng: Engine, store: Store, steps: seq<Step>, s: State, step: Step)
    requires Reached(cfg, eng, store, steps, s) && Sound(s) && Enabled(cfg, eng, s, step)
    ensures Goes(cfg, eng, store, steps, step, Apply(cfg, eng, s, step))
  {
    AfterConcat(cfg, eng, Initial(cfg, store), steps, [step]);
    AfterOne(cfg, eng, s, step);
  }

  // -------------------------------------------------------------------------
  // Clients
  // -------------------------------------------------------------------------

  /** A request that has arrived can be read, however many wait. It executes at once if a permit is
      free, and otherwise is the last in the queue; what follows it stays unread. */
  lemma ArrivedIsRead(cfg: Config, eng: Engine, store: Store, steps: seq<Step>, s: State, c: nat,
                      body: seq<Octet>, rest: seq<Octet>) returns (t: State)
    requires Reached(cfg, eng, store, steps, s) && c < |s.conns| && s.conns[c].phase.Reading?
    requires s.conns[c].line.unread == Frame(body) + rest && |body| <= cfg.maxPacket
    ensures Goes(cfg, eng, store, steps, Receive(c), t)
    ensures var k := s.conns[c];
      var read := k.(line := k.line.(unread := rest, taken := k.line.taken + [body]));
      if s.free > 0 then
        && Only(s, t, c, read.(permit := true, phase := Executing(eng.decode(body), Begin)))
        && t.free == s.free - 1 && t.queue == s.queue
      else
        && Only(s, t, c, read.(phase := Waiting(eng.decode(body))))
        && t.free == s.free && t.queue == s.queue + [c]
  {
    ReachedIsSound(cfg, eng, store, steps, s);
    FrameHeader(body, rest);
    var unread := s.conns[c].line.unread;
    assert unread[4..4 + |body|] == body && unread[4 + |body|..] == rest;
    OneMore(cfg, eng, store, steps, s, Receive(c));
    t := Received(cfg, eng, s, c);
  }

  /** A peer that arrives before the shutdown gets a fresh connection if it is admitted, and otherwise
      changes nothing. */
  lemma PeerIsTaken(cfg: Config, eng: Engine, store: Store, steps: seq<Step>, s: State, peer: Cidr.Ip) returns (t: State)
    requires Reached(cfg, eng, store, steps, s) && s.accepting
    ensures Goes(cfg, eng, store, steps, Accept(peer), t)
    ensures t == if Cidr.IsIpAllowed(cfg.whitelist, peer) then s.(conns := s.conns + [NewConn(peer)]) else s
  {
    ReachedIsSound(cfg, eng, store, steps, s);
    OneMore(cfg, eng, store, steps, s, Accept(peer));
    t := Apply(cfg, eng, s, Accept(peer));
  }

  /** Bytes that arrive before the client ends its side wait behind those that have. */
  lemma BytesAreTaken(cfg: Config, eng: Engine, store: Store, steps: seq<Step>, s: State, c: nat, bytes: seq<Octet>)
    returns (t: State)
    requires Reached(cfg, eng, store, steps, s) && c < |s.conns| && !s.conns[c].line.ended
    ensures Goes(cfg, eng, store, steps, Deliver(c, bytes), t)
    ensures var k := s.conns[c];
      Only(s, t, c, k.(line := k.line.(received := k.line.received + bytes, unread := k.line.unread + bytes)))
      && t.free == s.free && t.queue == s.queue
  {
    ReachedIsSound(cfg, eng, store, steps, s);
    OneMore(cfg, eng, store, steps, s, Deliver(c, bytes));
    t := Apply(cfg, eng, s, Deliver(c, bytes));
  }

  /** A client can end its side at any time, once. */
  lemma EndIsTaken(cfg: Config, eng: Engine, store: Store, steps: seq<Step>, s: State, c: nat) returns (t: State)
    requires Reached(cfg, eng, store, steps, s) && c < |s.conns| && !s.conns[c].line.ended
    ensures Goes(cfg, eng, store, steps, Hangup(c), t)
    ensures Only(s, t, c, s.conns[c].(line := s.conns[c].line.(ended := true))) && t.free == s.free && t.queue == s.queue
  {
    ReachedIsSound(cfg, eng, store, steps, s);
    OneMore(cfg, eng, store, steps, s, Hangup(c));
    t := Apply(cfg, eng, s, Hangup(c));
  }

  /** A connection from which no request can be read closes cleanly once its client has ended its side
      or announced a packet over the limit, and only then. */
  lemma CloseWhenDone(cfg: Config, eng: Engine, store: Store, steps: seq<Step>, s: State, c: nat)
    requires Reached(cfg, eng, store, steps, s) && c < |s.conns| && s.conns[c].phase.Reading?
    requires Stuck(s.conns[c].line.unread, cfg.maxPacket)
    ensures var k := s.conns[c];
      (exists t :: Goes(cfg, eng, store, steps, Close(c), t) && Only(s, t, c, k.(phase := Closed(true))))
      <==> k.line.ended || (|k.line.unread| >= 4 && HeaderValue(k.line.unread[..4]) > cfg.maxPacket)
  {
    ReachedIsSound(cfg, eng, store, steps, s);
    if Enabled(cfg, eng, s, Close(c)) {
      OneMore(cfg, eng, store, steps, s, Close(c));
      assert Only(s, Apply(cfg, eng, s, Close(c)), c, s.conns[c].(phase := Closed(true)));
    } else {
      AfterConcat(cfg, eng, Initial(cfg, store), steps, [Close(c)]);
    }
  }

  // -------------------------------------------------------------------------
  // Handlers and replies
  // -------------------------------------------------------------------------

  /** A handler that has not finished can go on, and gets closer to its end; one that has can return,
      whatever others do. */
  lemma HandlerGoesOn(cfg: Config, eng: Engine, store: Store, steps: seq<Step>, s: State, c: nat) returns (t: State)
    requires Reached(cfg, eng, store, steps, s) && c < |s.conns| && s.conns[c].phase.Executing?
    ensures var k := s.conns[c];
      if k.phase.work.Finished? then
        && Goes(cfg, eng, store, steps, Release(c), t) && |t.conns| == |s.conns|
        && t.conns[c].phase == Writing(k.phase.work.reply, Frame(eng.encode(k.phase.work.reply)))
      else
        && Goes(cfg, eng, store, steps, Advance(c), t) && |t.conns| == |s.conns|
        && t.conns[c].phase.Executing? && Rank(t.conns[c].phase.work) < Rank(k.phase.work)
  {
    ReachedIsSound(cfg, eng, store, steps, s);
    var k := s.conns[c];
    assert ConnSound(s.store, k);
    if k.phase.work.Finished? {
      OneMore(cfg, eng, store, steps, s, Release(c));
      t := Released(cfg, eng, s, c);
    } else {
      MicroDescends(cfg, eng, s.store, k.session, k.phase.req, k.phase.work);
      OneMore(cfg, eng, store, steps, s, Advance(c));
      t := Advanced(cfg, eng, s, c);
    }
  }

  /** Any number of the bytes still to be sent can go out. */
  lemma ReplyGoesOut(cfg: Config, eng: Engine, store: Store, steps: seq<Step>, s: State, c: nat, n: nat)
    returns (t: State)
    requires Reached(cfg, eng, store, steps, s) && c < |s.conns| && s.conns[c].phase.Writing?
    requires n <= |s.conns[c].phase.left|
    ensures Goes(cfg, eng, store, steps, Send(c, n), t)
    ensures var k := s.conns[c];
      Only(s, t, c, k.(line := k.line.(sent := k.line.sent + k.phase.left[..n]),
                       phase := Writing(k.phase.reply, k.phase.left[n..])))
  {
    ReachedIsSound(cfg, eng, store, steps, s);
    OneMore(cfg, eng, store, steps, s, Send(c, n));
    t := Apply(cfg, eng, s, Send(c, n));
  }

  /** A reply all of whose bytes are out is done, and the connection reads on. */
  lemma ReplyIsDone(cfg: Config, eng: Engine, store: Store, steps: seq<Step>, s: State, c: nat) returns (t: State)
    requires Reached(cfg, eng, store, steps, s) && c < |s.conns| && s.conns[c].phase.Writing?
    requires s.conns[c].phase.left == []
    ensures Goes(cfg, eng, store, steps, Wrote(c), t)
    ensures var k := s.conns[c];
      Only(s, t, c, k.(line := k.line.(answered := k.line.answered + [k.phase.reply]), phase := Reading))
  {
    ReachedIsSound(cfg, eng, store, steps, s);
    OneMore(cfg, eng, store, steps, s, Wrote(c));
    t := Apply(cfg, eng, s, Wrote(c));
  }

  /** The network may fail a connection whenever it reads or writes, and the server may be told to take
      no more peers whenever it takes any. */
  lemma FailuresHappen(cfg: Config, eng: Engine, store: Store, steps: seq<Step>, s: State, c: nat)
    requires Reached(cfg, eng, store, steps, s) && c < |s.conns|
    ensures var k := s.conns[c];
      && (k.phase.Reading? ==>
            exists t :: Goes(cfg, eng, store, steps, Reset(c), t) && Only(s, t, c, k.(phase := Closed(false))))
      && (k.phase.Writing? ==>
            exists t :: Goes(cfg, eng, store, steps, Lose(c), t) && Only(s, t, c, k.(phase := Broken(k.phase.reply))))
      && (s.accepting ==> Goes(cfg, eng, store, steps, Shutdown, s.(accepting := false)))
  {
    ReachedIsSound(cfg, eng, store, steps, s);
    var k := s.conns[c];
    if k.phase.Reading? {
      OneMore(cfg, eng, store, steps, s, Reset(c));
      assert Only(s, Apply(cfg, eng, s, Reset(c)), c, k.(phase := Closed(false)));
    }
    if k.phase.Writing? {
      OneMore(cfg, eng, store, steps, s, Lose(c));
      assert Only(s, Apply(cfg, eng, s, Lose(c)), c, k.(phase := Broken(k.phase.reply)));
    }
    if s.accepting {
      OneMore(cfg, eng, store, steps, s, Shutdown);
    }
  }

  // -------------------------------------------------------------------------
  // Every request can be answered
  // -------------------------------------------------------------------------

  /** What every reachable state has. */
  ghost predicate Healthy(cfg: Config, s: State) { Sound(s) && Ordered(s) && Supply(s) == System.Permits(cfg) }

  lemma StaysHealthy(cfg: Config, eng: Engine, s: State, steps: seq<Step>)
    requires Healthy(cfg, s) && After(cfg, eng, s, steps).Some?
    ensures Healthy(cfg, After(cfg, eng, s, steps).value)
  {
    RunConserves(cfg, eng, s, steps);
  }

  lemma StepStaysHealthy(cfg: Config, eng: Engine, s: State, step: Step)
    requires Healthy(cfg, s) && Enabled(cfg, eng, s, step)
    ensures Healthy(cfg, Apply(cfg, eng, s, step))
  {
    ApplyKeepsSound(cfg, eng, s, step);
    StepKeepsOrder(cfg, eng, s, step);
    StepKeepsSupply(cfg, eng, s, step);
  }

  /** From `s` there are steps after which connection `c` reads again, with one reply more. */
  ghost predicate Answers(cfg: Config, eng: Engine, s: State, c: nat, steps: seq<Step>) {
    && Sound(s) && c < |s.conns|
    && var end := After(cfg, eng, s, steps);
       end.Some? && c < |end.value.conns| && Replied(s.conns[c], end.value.conns[c])
  }

  predicate Replied(k: Conn, k': Conn) {
    && k'.phase.Reading? && |k'.line.answered| == |k.line.answered| + 1 && k.line.answered <= k'.line.answered
    && k'.line.taken == k.line.taken && k'.line.unread == k.line.unread
  }

  /** Steps that leave the connection's streams alone, in front of steps that answer. */
  lemma AnswersLater(cfg: Config, eng: Engine, s: State, c: nat, front: seq<Step>, back: seq<Step>)
    requires Sound(s) && c < |s.conns| && After(cfg, eng, s, front).Some?
    requires var t := After(cfg, eng, s, front).value;
      Answers(cfg, eng, t, c, back)
      && t.conns[c].line.answered == s.conns[c].line.answered
      && t.conns[c].line.taken == s.conns[c].line.taken && t.conns[c].line.unread == s.conns[c].line.unread
    ensures Answers(cfg, eng, s, c, front + back)
  {
    AfterConcat(cfg, eng, s, front, back);
  }

  lemma WritingIsAnswered(cfg: Config, eng: Engine, s: State, c: nat) returns (steps: seq<Step>)
    requires Healthy(cfg, s) && c < |s.conns| && s.conns[c].phase.Writing?
    ensures Answers(cfg, eng, s, c, steps)
  {
    steps := [Send(c, |s.conns[c].phase.left|), Wrote(c)];
    Uninterrupted.SendsAll(cfg, eng, s, c);
  }

  lemma FinishedIsAnswered(cfg: Config, eng: Engine, s: State, c: nat) returns (steps: seq<Step>)
    requires Healthy(cfg, s) && c < |s.conns| && s.conns[c].phase.Executing? && s.conns[c].phase.work.Finished?
    ensures Answers(cfg, eng, s, c, steps)
  {
    StepStaysHealthy(cfg, eng, s, Release(c));
    var rest := WritingIsAnswered(cfg, eng, Released(cfg, eng, s, c), c);
    AfterOne(cfg, eng, s, Release(c));
    AnswersLater(cfg, eng, s, c, [Release(c)], rest);
    steps := [Release(c)] + rest;
  }

  lemma ExecutingIsAnswered(cfg: Config, eng: Engine, s: State, c: nat) returns (steps: seq<Step>)
    requires Healthy(cfg, s) && c < |s.conns| && s.conns[c].phase.Executing?
    ensures Answers(cfg, eng, s, c, steps)
  {
    assert ConnSound(s.store, s.conns[c]);
    var goal := Uninterrupted.Goal(cfg, eng, s, c);
    var n := Uninterrupted.RunsToCompletion(cfg, eng, s, c, Rank(s.conns[c].phase.work), goal);
    var front := Uninterrupted.Advances(c, n);
    StaysHealthy(cfg, eng, s, front);
    var rest := FinishedIsAnswered(cfg, eng, After(cfg, eng, s, front).value, c);
    AnswersLater(cfg, eng, s, c, front, rest);
    steps := front + rest;
  }

  /** The waiter starts, and its streams are as they were. */
  ghost predicate GrantedAsIs(cfg: Config, eng: Engine, s: State, steps: seq<Step>, k: nat) {
    && GrantedBy(cfg, eng, s, steps, k)
    && After(cfg, eng, s, steps).value.conns[s.queue[k]].line == s.conns[s.queue[k]].line
  }

  lemma GrantedHere(cfg: Config, eng: Engine, s: State, step: Step)
    requires Healthy(cfg, s) && s.queue != [] && step.Release? && Enabled(cfg, eng, s, step)
    ensures GrantedAsIs(cfg, eng, s, [step], 0)
  {
    GrantedNow(cfg, eng, s, step);
    StepStarts(cfg, eng, s, step.conn);
    AfterOne(cfg, eng, s, step);
  }

  lemma LineKept(cfg: Config, eng: Engine, s: State, step: Step, k: nat)
    requires Healthy(cfg, s) && k < |s.queue| && IsHandlerStep(step) && Enabled(cfg, eng, s, step)
    requires !(step.Release? && k == 0)
    ensures var t := Apply(cfg, eng, s, step);
      && Place(step, k) < |t.queue| && t.queue[Place(step, k)] == s.queue[k] < |t.conns|
      && t.conns[s.queue[k]].line == s.conns[s.queue[k]].line
  {
    StepPlace(cfg, eng, s, step, k);
  }

  lemma GrantedThere(cfg: Config, eng: Engine, s: State, step: Step, rest: seq<Step>, k: nat)
    requires Healthy(cfg, s) && k < |s.queue| && IsHandlerStep(step) && Enabled(cfg, eng, s, step)
    requires !(step.Release? && k == 0)
    requires GrantedAsIs(cfg, eng, Apply(cfg, eng, s, step), rest, Place(step, k))
    ensures GrantedAsIs(cfg, eng, s, [step] + rest, k)
  {
    GrantedLater(cfg, eng, s, step, rest, k);
    LineKept(cfg, eng, s, step, k);
    AfterCons(cfg, eng, s, step, rest);
  }

  /** Handler steps alone bring a waiting connection to its turn. */
  lemma {:induction false} WaitingIsGranted(cfg: Config, eng: Engine, s: State, k: nat) returns (steps: seq<Step>)
    requires Healthy(cfg, s) && k < |s.queue|
    ensures GrantedAsIs(cfg, eng, s, steps, k)
    decreases k, Total(Left, s.conns)
  {
    var step := NeverStuck(cfg, eng, s);
    if step.Release? && k == 0 {
      GrantedHere(cfg, eng, s, step);
      steps := [step];
    } else {
      StepStaysHealthy(cfg, eng, s, step);
      StepPlace(cfg, eng, s, step, k);
      if step.Advance? {
        AdvanceDescends(cfg, eng, s, step.conn);
      }
      var rest := WaitingIsGranted(cfg, eng, Apply(cfg, eng, s, step), Place(step, k));
      GrantedThere(cfg, eng, s, step, rest, k);
      steps := [step] + rest;
    }
  }

  lemma WaitingIsAnswered(cfg: Config, eng: Engine, s: State, c: nat) returns (steps: seq<Step>)
    requires Healthy(cfg, s) && c < |s.conns| && s.conns[c].phase.Waiting?
    ensures Answers(cfg, eng, s, c, steps)
  {
    var k :| 0 <= k < |s.queue| && s.queue[k] == c;
    var front := WaitingIsGranted(cfg, eng, s, k);
    StaysHealthy(cfg, eng, s, front);
    var t := After(cfg, eng, s, front).value;
    var rest := ExecutingIsAnswered(cfg, eng, t, c);
    steps := front + rest;
    AnswersLater(cfg, eng, s, c, front, rest);
  }

  /** In every reachable state, every request that has arrived complete and within the limit can still
      be read and answered, whatever the other connections do: the run can be extended so that one
      more reply is written on that connection and it reads on behind the request. */
  lemma ArrivedIsAnswered(cfg: Config, eng: Engine, store: Store, steps: seq<Step>, s: State, c: nat,
                          body: seq<Octet>, rest: seq<Octet>) returns (more: seq<Step>, t: State)
    requires Reached(cfg, eng, store, steps, s) && c < |s.conns| && s.conns[c].phase.Reading?
    requires s.conns[c].line.unread == Frame(body) + rest && |body| <= cfg.maxPacket
    ensures Reached(cfg, eng, store, steps + more, t) && c < |t.conns| && t.conns[c].phase.Reading?
    ensures t.conns[c].line.unread == rest && t.conns[c].line.taken == s.conns[c].line.taken + [body]
    ensures s.conns[c].line.answered <= t.conns[c].line.answered
    ensures |t.conns[c].line.answered| == |s.conns[c].line.answered| + 1
  {
    var read := ArrivedIsRead(cfg, eng, store, steps, s, c, body, rest);
    ReachedIsSound(cfg, eng, store, steps + [Receive(c)], read);
    var back: seq<Step>;
    if read.conns[c].phase.Executing? {
      back := ExecutingIsAnswered(cfg, eng, read, c);
    } else {
      back := WaitingIsAnswered(cfg, eng, read, c);
    }
    AfterConcat(cfg, eng, Initial(cfg, store), steps + [Receive(c)], back);
    more := [Receive(c)] + back;
    Regroup(steps, [Receive(c)], back);
    t := After(cfg, eng, read, back).value;
  }
}
