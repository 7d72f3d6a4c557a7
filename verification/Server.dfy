/** The accept loop, and what it does to the server's state. */
module Server {
  import opened HandlerSpec
  import opened System
  import Cidr

  /** What the loop waits for: a peer, a failed accept, or the shutdown signal. */
  datatype Arrival = Peer(ip: Cidr.Ip) | AcceptError | ShutdownSignal

  /** The peers a connection is made for: those the whitelist admits, in order, before shutdown. */
  function Admitted(cfg: Config, arrivals: seq<Arrival>): seq<Cidr.Ip> {
    if arrivals == [] || arrivals[0].ShutdownSignal? then []
    else if arrivals[0].Peer? && Cidr.IsIpAllowed(cfg.whitelist, arrivals[0].ip) then
      [arrivals[0].ip] + Admitted(cfg, arrivals[1..])
    else Admitted(cfg, arrivals[1..])
  }

  predicate BeforeShutdown(arrivals: seq<Arrival>) {
    forall i :: 0 <= i < |arrivals| ==> !arrivals[i].ShutdownSignal?
  }

  /** A failed accept is passed over, a peer counts exactly if it is admitted, and nothing counts from
      the shutdown signal on. */
  lemma {:induction false} AdmittedInOrder(cfg: Config, before: seq<Arrival>, next: Arrival, later: seq<Arrival>)
    requires BeforeShutdown(before)
    ensures Admitted(cfg, before + [next] + later)
      == Admitted(cfg, before)
         + (match next
            case Peer(ip) => (if Cidr.IsIpAllowed(cfg.whitelist, ip) then [ip] else []) + Admitted(cfg, later)
            case AcceptError => Admitted(cfg, later)
            case ShutdownSignal => [])
    decreases |before|
  {
    var all := before + [next] + later;
    if before == [] {
      assert all[0] == next && all[1..] == later;
    } else {
      assert all[0] == before[0] && all[1..] == before[1..] + [next] + later;
      AdmittedInOrder(cfg, before[1..], next, later);
    }
  }

  /** After `spawned`, the arrivals still to come lead to `goal`. */
  predicate Towards(cfg: Config, goal: seq<Cidr.Ip>, spawned: seq<Cidr.Ip>, coming: seq<Arrival>) {
    goal == spawned + Admitted(cfg, coming)
  }

  lemma TowardsNext(cfg: Config, goal: seq<Cidr.Ip>, spawned: seq<Cidr.Ip>, arrivals: seq<Arrival>, i: nat)
    requires i < |arrivals| && Towards(cfg, goal, spawned, arrivals[i..])
    ensures match arrivals[i]
      case Peer(ip) =>
        Towards(cfg, goal, if Cidr.IsIpAllowed(cfg.whitelist, ip) then spawned + [ip] else spawned, arrivals[i + 1..])
      case AcceptError => Towards(cfg, goal, spawned, arrivals[i + 1..])
      case ShutdownSignal => goal == spawned
  {
    assert arrivals[i..][1..] == arrivals[i + 1..];
    match arrivals[i]
    case Peer(ip) =>
      var more := Admitted(cfg, arrivals[i + 1..]);
      assert spawned + ([ip] + more) == (spawned + [ip]) + more;
    case AcceptError =>
    case ShutdownSignal => assert spawned + [] == spawned;
  }

  /** `run`: the loop ends with the arrivals or at the shutdown signal. */
  method Run(cfg: Config, arrivals: seq<Arrival>) returns (spawned: seq<Cidr.Ip>)
    ensures spawned == Admitted(cfg, arrivals)
  {
    spawned := [];
    ghost var goal := Admitted(cfg, arrivals);
    assert arrivals[0..] == arrivals;
    var i := 0;
    while i < |arrivals|
      invariant 0 <= i <= |arrivals|
      invariant Towards(cfg, goal, spawned, arrivals[i..])
    {
      TowardsNext(cfg, goal, spawned, arrivals, i);
      match arrivals[i] {
        case Peer(ip) =>
          i := i + 1;
          if !Cidr.IsIpAllowed(cfg.whitelist, ip) {
            continue;
          }
          spawned := spawned + [ip];
        case AcceptError =>
          i := i + 1;
        case ShutdownSignal =>
          break;
      }
    }
  }

  // -------------------------------------------------------------------------
  // The loop among everything else
  // -------------------------------------------------------------------------

  /** The arrivals of a run, in order, whatever connections do in between. */
  function Arrivals(steps: seq<Step>): seq<Arrival> {
    if steps == [] then []
    else match steps[0]
      case Accept(peer) => [Peer(peer)] + Arrivals(steps[1..])
      case Shutdown => [ShutdownSignal] + Arrivals(steps[1..])
      case _ => Arrivals(steps[1..])
  }

  function Peers(conns: seq<Conn>): seq<Cidr.Ip> { seq(|conns|, i requires 0 <= i < |conns| => conns[i].peer) }

  lemma StepKeepsPeers(cfg: Config, eng: Engine, s: State, step: Step)
    requires Sound(s) && Enabled(cfg, eng, s, step) && !step.Accept?
    ensures Peers(Apply(cfg, eng, s, step).conns) == Peers(s.conns)
    ensures Apply(cfg, eng, s, step).accepting == (s.accepting && !step.Shutdown?)
  {
    if IsIdle(step) {
      IdleStep(cfg, eng, s, step);
    }
  }

  /** In every run the connections are those of the peers that the accept loop admits, in order of
      arrival, and none is added after shutdown. */
  lemma {:induction false} PeersAreAdmitted(cfg: Config, eng: Engine, s: State, steps: seq<Step>)
    requires Sound(s) && After(cfg, eng, s, steps).Some?
    ensures var s' := After(cfg, eng, s, steps).value;
      && Peers(s'.conns) == Peers(s.conns) + (if s.accepting then Admitted(cfg, Arrivals(steps)) else [])
      && s'.accepting == (s.accepting && ShutdownSignal !in Arrivals(steps))
    decreases |steps|
  {
    if steps == [] {
      assert Peers(s.conns) + [] == Peers(s.conns);
    } else {
      var step, rest := steps[0], steps[1..];
      var t := Apply(cfg, eng, s, step);
      ApplyKeepsSound(cfg, eng, s, step);
      PeersAreAdmitted(cfg, eng, t, rest);
      match step {
        case Accept(peer) => AcceptedFirst(cfg, s, peer, Arrivals(rest));
        case _ => StepKeepsPeers(cfg, eng, s, step);
      }
    }
  }

  lemma AcceptedFirst(cfg: Config, s: State, peer: Cidr.Ip, coming: seq<Arrival>)
    ensures var more := [Peer(peer)] + coming;
      var conns := if Cidr.IsIpAllowed(cfg.whitelist, peer) then s.conns + [NewConn(peer)] else s.conns;
      && Peers(conns) + Admitted(cfg, coming) == Peers(s.conns) + Admitted(cfg, more)
      && (ShutdownSignal in more <==> ShutdownSignal in coming)
  {
    assert ([Peer(peer)] + coming)[1..] == coming;
  }
}
