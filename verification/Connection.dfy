/** The per-connection loop: read a header, check the limit, read the body, handle the request,
    write the framed reply, until the stream ends, a header is over the limit or a write fails. */
module Connection {
  import opened Basics
  import opened JsonValue
  import opened HandlerSpec
  import opened Handler
  import opened Framing
  import opened Streams
  import opened Wire

  /** How many of `n` requests are handled when `writable` writes succeed: one more than can be
      answered, if there is one. */
  function Handled(n: nat, writable: nat): nat { if n <= writable then n else writable + 1 }

  /** All requests in a byte stream. */
  function RequestTexts(cfg: Config, eng: Engine, s: seq<Octet>): seq<string> {
    Decoded(eng, Requests(s, cfg.maxPacket))
  }

  /** The requests of a byte stream that will be handled. */
  function Todo(cfg: Config, eng: Engine, s: seq<Octet>, writable: nat): seq<string> {
    var texts := RequestTexts(cfg, eng, s);
    texts[..Handled(|texts|, writable)]
  }

  lemma TodoUnfolds(cfg: Config, eng: Engine, s: seq<Octet>, writable: nat)
    ensures Stuck(s, cfg.maxPacket) ==> Todo(cfg, eng, s, writable) == []
    ensures !Stuck(s, cfg.maxPacket) ==>
      var n := HeaderValue(s[..4]);
      Todo(cfg, eng, s, writable)
      == [eng.decode(s[4..4 + n])] + (if writable == 0 then [] else Todo(cfg, eng, s[4 + n..], writable - 1))
  {
    if !Stuck(s, cfg.maxPacket) {
      var n := HeaderValue(s[..4]);
      var bodies, more := Requests(s, cfg.maxPacket), Requests(s[4 + n..], cfg.maxPacket);
      assert bodies == [s[4..4 + n]] + more;
      assert Decoded(eng, bodies) == [eng.decode(s[4..4 + n])] + Decoded(eng, more);
    }
  }

  /** What the loop works on: the folder, this connection's own state, the bytes not yet read,
      the writes that will still succeed, and the bytes sent. */
  datatype View = View(store: Store, session: Session, unread: seq<Octet>, writable: nat, sent: seq<Octet>)

  ghost function Look(stream: Stream, handler: RequestHandler): View
    reads stream, handler, handler.folder
  {
    View(handler.folder.store, handler.Session(), stream.Pending(), stream.writable, stream.sent)
  }

  /** One turn of the loop: nothing but reading when the stream is stuck, otherwise one request
      handled and one reply written or lost. */
  ghost predicate Turned(cfg: Config, eng: Engine, v: View, v': View, reply: Option<Json>, ok: bool)
    requires v.store.Valid() && CacheValid(v.store, v.session.cache)
  {
    if Stuck(v.unread, cfg.maxPacket) then
      reply == None && !ok && v' == v.(unread := v'.unread)
    else
      var n := HeaderValue(v.unread[..4]);
      && reply.Some? && v'.unread == v.unread[4 + n..]
      && Handle(cfg, eng, v.store, v.session, eng.decode(v.unread[4..4 + n])) == (v'.store, v'.session, reply.value)
      && (ok <==> v.writable > 0)
      && (ok ==> v'.writable == v.writable - 1 && v'.sent == v.sent + Frame(eng.encode(reply.value)))
      && (!ok ==> v'.writable == 0 && v.sent <= v'.sent <= v.sent + Frame(eng.encode(reply.value)))
  }

  method Turn(stream: Stream, handler: RequestHandler) returns (reply: Option<Json>, ok: bool)
    requires stream.Valid() && handler.Valid()
    modifies stream, handler, handler.folder
    ensures stream.Valid() && handler.Valid()
    ensures Turned(handler.config, handler.eng, old(Look(stream, handler)), Look(stream, handler), reply, ok)
  {
    ghost var s := stream.Pending();
    var header := stream.ReadExact(4);
    if header.None? {
      return None, false;
    }
    var size := HeaderValue(header.value);
    if size > handler.config.maxPacket {
      return None, false;
    }
    var body := stream.ReadExact(size);
    if body.None? {
      return None, false;
    }
    assert s[4..][..size] == s[4..4 + size] && s[4..][size..] == s[4 + size..];
    var answer := handler.HandleRequest(handler.eng.decode(body.value));
    ok := stream.WriteAll(Frame(handler.eng.encode(answer)));
    reply := Some(answer);
  }

  type Service = (Store, Session, seq<Json>)

  /** After `replies`, serving these requests leads to `goal`. */
  ghost predicate Ahead(cfg: Config, eng: Engine, goal: Service, store: Store, session: Session,
                        todo: seq<string>, replies: seq<Json>) {
    && store.Valid() && CacheValid(store, session.cache)
    && var (last, final, ahead) := Serve(cfg, eng, store, session, todo);
       goal == (last, final, replies + ahead)
  }

  /** After `replies`, serving the rest of the stream leads to `goal`. */
  ghost predicate Towards(cfg: Config, eng: Engine, goal: Service, store: Store, session: Session,
                          s: seq<Octet>, writable: nat, replies: seq<Json>) {
    Ahead(cfg, eng, goal, store, session, Todo(cfg, eng, s, writable), replies)
  }

  lemma TowardsStart(cfg: Config, eng: Engine, store: Store, session: Session, s: seq<Octet>, writable: nat)
    requires store.Valid() && CacheValid(store, session.cache)
    ensures var goal := Serve(cfg, eng, store, session, Todo(cfg, eng, s, writable));
      Towards(cfg, eng, goal, store, session, s, writable, [])
  {
    var ahead := Serve(cfg, eng, store, session, Todo(cfg, eng, s, writable)).2;
    assert [] + ahead == ahead;
  }

  lemma TowardsEnd(cfg: Config, eng: Engine, goal: Service, store: Store, session: Session,
                   s: seq<Octet>, writable: nat, replies: seq<Json>)
    requires Towards(cfg, eng, goal, store, session, s, writable, replies)
    requires Stuck(s, cfg.maxPacket)
    ensures goal == (store, session, replies)
  {
    TodoUnfolds(cfg, eng, s, writable);
    assert replies + [] == replies;
  }

  lemma TowardsNext(cfg: Config, eng: Engine, goal: Service, store: Store, session: Session,
                    s: seq<Octet>, writable: nat, replies: seq<Json>, store': Store, session': Session, reply: Json)
    requires Towards(cfg, eng, goal, store, session, s, writable, replies)
    requires !Stuck(s, cfg.maxPacket)
    requires Handle(cfg, eng, store, session, eng.decode(s[4..4 + HeaderValue(s[..4])])) == (store', session', reply)
    ensures writable == 0 ==> goal == (store', session', replies + [reply])
    ensures writable > 0 ==>
      Towards(cfg, eng, goal, store', session', s[4 + HeaderValue(s[..4])..], writable - 1, replies + [reply])
  {
    var n := HeaderValue(s[..4]);
    var rest := if writable == 0 then [] else Todo(cfg, eng, s[4 + n..], writable - 1);
    TodoFirst(cfg, eng, s, writable, eng.decode(s[4..4 + n]), rest);
    Onwards(cfg, eng, goal, store, session, eng.decode(s[4..4 + n]), rest, replies);
  }

  lemma TodoFirst(cfg: Config, eng: Engine, s: seq<Octet>, writable: nat, req: string, rest: seq<string>)
    requires !Stuck(s, cfg.maxPacket) && req == eng.decode(s[4..4 + HeaderValue(s[..4])])
    requires rest == if writable == 0 then [] else Todo(cfg, eng, s[4 + HeaderValue(s[..4])..], writable - 1)
    ensures Todo(cfg, eng, s, writable) == [req] + rest
  {
    TodoUnfolds(cfg, eng, s, writable);
  }

  /** One request of those still to be served. */
  lemma Onwards(cfg: Config, eng: Engine, goal: Service, store: Store, session: Session,
                req: string, rest: seq<string>, replies: seq<Json>)
    requires Ahead(cfg, eng, goal, store, session, [req] + rest, replies)
    ensures var (store', session', reply) := Handle(cfg, eng, store, session, req);
      && Ahead(cfg, eng, goal, store', session', rest, replies + [reply])
      && (rest == [] ==> goal == (store', session', replies + [reply]))
  {
    HandleKeepsValid(cfg, eng, store, session, req);
    var (store', session', reply) := Handle(cfg, eng, store, session, req);
    assert ([req] + rest)[1..] == rest;
    var ahead := Serve(cfg, eng, store', session', rest).2;
    Regroup(replies, [reply], ahead);
    assert ahead == [] ==> replies + [reply] + ahead == replies + [reply];
  }

  /** The loop's state between two turns, or after the last. */
  ghost predicate Running(cfg: Config, eng: Engine, goal: Service, start: View, v: View,
                          replies: seq<Json>, ok: bool) {
    && v.store.Valid() && CacheValid(v.store, v.session.cache)
    && Delivered(eng, start.sent, replies, start.writable, v.sent)
    && (ok ==> |replies| + v.writable == start.writable)
    && (if ok then Towards(cfg, eng, goal, v.store, v.session, v.unread, v.writable, replies)
        else goal == (v.store, v.session, replies))
  }

  function Extended(replies: seq<Json>, reply: Option<Json>): seq<Json> {
    match reply case Some(r) => replies + [r] case None => replies
  }

  lemma RunningNext(cfg: Config, eng: Engine, goal: Service, start: View, v: View, replies: seq<Json>,
                    v': View, reply: Option<Json>, ok: bool)
    requires Running(cfg, eng, goal, start, v, replies, true)
    requires Turned(cfg, eng, v, v', reply, ok) && v'.store.Valid() && CacheValid(v'.store, v'.session.cache)
    ensures Running(cfg, eng, goal, start, v', Extended(replies, reply), ok)
    ensures ok ==> |v'.unread| < |v.unread|
  {
    if reply.None? {
      TowardsEnd(cfg, eng, goal, v.store, v.session, v.unread, v.writable, replies);
    } else {
      TowardsNext(cfg, eng, goal, v.store, v.session, v.unread, v.writable, replies, v'.store, v'.session,
            reply.value);
      DeliveredNext(eng, start.sent, replies, start.writable, v.sent, reply.value, v'.sent);
    }
  }

  /** `connection::handle`. Whatever the chunking, exactly the complete in-limit frames are
      handled, in order; as long as writes succeed each gets one framed reply, in order. */
  method HandleConnection(stream: Stream, handler: RequestHandler) returns (ghost replies: seq<Json>)
    requires stream.Valid() && handler.Valid()
    modifies stream, handler, handler.folder
    ensures stream.Valid() && handler.Valid()
    ensures Serve(handler.config, handler.eng, old(handler.folder.store), old(handler.Session()),
                  Todo(handler.config, handler.eng, old(stream.Pending()), old(stream.writable)))
      == (handler.folder.store, handler.Session(), replies)
    ensures Delivered(handler.eng, old(stream.sent), replies, old(stream.writable), stream.sent)
  {
    ghost var cfg, eng, start := handler.config, handler.eng, Look(stream, handler);
    ghost var goal := Serve(cfg, eng, start.store, start.session, Todo(cfg, eng, start.unread, start.writable));
    TowardsStart(cfg, eng, start.store, start.session, start.unread, start.writable);
    replies := [];
    var ok := true;
    while ok
      invariant stream.Valid() && handler.Valid()
      invariant Running(cfg, eng, goal, start, Look(stream, handler), replies, ok)
      decreases ok, |stream.Pending()|
    {
      ghost var v := Look(stream, handler);
      var reply;
      reply, ok := Turn(stream, handler);
      RunningNext(cfg, eng, goal, start, v, replies, Look(stream, handler), reply, ok);
      replies := Extended(replies, reply);
    }
  }

  // -------------------------------------------------------------------------
  // What a client sees
  // -------------------------------------------------------------------------

  lemma {:induction false} OneReplyEach(cfg: Config, eng: Engine, store: Store, session: Session, reqs: seq<string>)
    requires store.Valid() && CacheValid(store, session.cache)
    ensures |Serve(cfg, eng, store, session, reqs).2| == |reqs|
    decreases |reqs|
  {
    if reqs != [] {
      HandleKeepsValid(cfg, eng, store, session, reqs[0]);
      var (store', session', _) := Handle(cfg, eng, store, session, reqs[0]);
      OneReplyEach(cfg, eng, store', session', reqs[1..]);
    }
  }

  /** End to end: a client that sends complete in-limit frames and then anything the server
      cannot take gets each of them handled once and in order, as far as writes go. Reading
      frames from what came back gives the replies to its requests in order, none out of place
      and none invented: all of them when the writes succeeded. */
  lemma ExactService(cfg: Config, eng: Engine, store: Store, session: Session,
                     bodies: seq<seq<Octet>>, tail: seq<Octet>, writable: nat, after: seq<Octet>)
    requires store.Valid() && CacheValid(store, session.cache)
    requires Stuck(tail, cfg.maxPacket)
    requires forall i :: 0 <= i < |bodies| ==> |bodies[i]| <= cfg.maxPacket
    ensures var replies := Serve(cfg, eng, store, session, Todo(cfg, eng, Frames(bodies) + tail, writable)).2;
      && replies == Serve(cfg, eng, store, session, Decoded(eng, bodies)[..Handled(|bodies|, writable)]).2
      && |replies| == Handled(|bodies|, writable)
      && (Delivered(eng, [], replies, writable, after)
          && (forall i :: 0 <= i < |replies| ==> |eng.encode(replies[i])| < U32_LIMIT) ==>
            && Requests(after, U32_LIMIT - 1) <= Encoded(eng, replies)
            && (|bodies| <= writable ==> Requests(after, U32_LIMIT - 1) == Encoded(eng, replies)))
  {
    FramesAreRead(bodies, tail, cfg.maxPacket);
    var todo := Todo(cfg, eng, Frames(bodies) + tail, writable);
    OneReplyEach(cfg, eng, store, session, todo);
    var replies := Serve(cfg, eng, store, session, todo).2;
    if Delivered(eng, [], replies, writable, after)
       && forall i :: 0 <= i < |replies| ==> |eng.encode(replies[i])| < U32_LIMIT {
      DeliveredIsRead(eng, replies, writable, after);
    }
  }
}
