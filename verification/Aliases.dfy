/** Freshness of cached handles fails for aliases without any other connection, on a run of the
    whole server: open `a/`, delete `a`. */
module Aliases {
  import opened Basics
  import opened JsonValue
  import opened HandlerSpec
  import opened Framing
  import opened System
  import opened Uninterrupted
  import Cidr
  import Freshness
  import Names
  import Tables

  function OpenJson(): Json { JObj(map["cmd" := JStr("query"), "db" := JStr("a/"), "query" := JStr("x")]) }

  function DeleteJson(): Json { JObj(map["cmd" := JStr("delete_db"), "db" := JStr("a")]) }

  /** Body `[1]` asks for a query on `a/`, any other for the deletion of `a`; statements do nothing. */
  const ALIASING := Engine(
    body => if body == [1] then "open" else "delete", _ => [],
    req => Some(if req == "open" then OpenJson() else DeleteJson()), _ => "",
    _ => true, _ => (0, ""), content => (content, None),
    (store: Store, file: OpenFile, query: string) => (Change([], map[]), CLEAN, Done(Tables.Table([], []))),
    _ => true, _ => [])

  const EMPTY := Store(map[], map[], 0)

  /** The folder with one empty database `a`. */
  const ONE_DATABASE := Store(map["a" := 0], map[0 := []], 1)

  lemma Lowered()
    ensures LowerAll("query") == "query" && LowerAll("delete_db") == "delete_db"
  {
    LowersTo("query", "query");
    LowersTo("delete_db", "delete_db");
  }

  lemma GateOpens(cfg: Config)
    requires cfg.auth == ""
    ensures Gate(cfg, ALIASING, false, "open") == (false, DoQuery("a/", "x", OpenJson()))
  {
    Lowered();
    OpenFields();
    Names.TrailingSeparatorIsSafe();
  }

  lemma OpenFields()
    ensures GetStr(OpenJson(), "cmd") == Some("query")
    ensures GetStr(OpenJson(), "db") == Some("a/") && GetStr(OpenJson(), "query") == Some("x")
    ensures !IsBlankText("x")
  {
    assert "cmd"[0] != "db"[0] && "cmd"[0] != "query"[0] && "db"[0] != "query"[0] && !IsBlank("x"[0]);
  }

  lemma GateDeletes(cfg: Config)
    requires cfg.auth == ""
    ensures Gate(cfg, ALIASING, false, "delete") == (false, DoDelete("a"))
  {
    Lowered();
    Names.PlainNames("a");
  }

  lemma OpensAlias(cfg: Config)
    requires cfg.auth == ""
    ensures EMPTY.Valid() && CacheValid(EMPTY, map[])
    ensures var (store, session, _) := Handle(cfg, ALIASING, EMPTY, FRESH_SESSION, "open");
      store == ONE_DATABASE && session == Session(false, ALIASED)
  {
    GateOpens(cfg);
    Opening();
    assert Perform(ONE_DATABASE, Change([], map[])).contents == ONE_DATABASE.contents;
    assert ALIASED["a/" := OpenFile(0, CLEAN)] == ALIASED;
  }

  lemma Opening()
    ensures EMPTY.Valid() && GetHandle(ALIASING, EMPTY, map[], "a/") == (ONE_DATABASE, ALIASED, None)
  {
    Names.TrailingSeparatorIsSafe();
    assert ONE_DATABASE.contents[0 := []] == ONE_DATABASE.contents;
  }

  const ALIASED: map<string, OpenFile> := map["a/" := OpenFile(0, CLEAN)]

  lemma AliasedIsValid()
    ensures ONE_DATABASE.Valid() && CacheValid(ONE_DATABASE, ALIASED)
    ensures ALIASED - {"a"} == ALIASED && Removes(ALIASING, ONE_DATABASE, "a")
  {}

  lemma DeletesEntry(cfg: Config)
    requires cfg.auth == ""
    ensures ONE_DATABASE.Valid() && CacheValid(ONE_DATABASE, ALIASED)
    ensures Handle(cfg, ALIASING, ONE_DATABASE, Session(false, ALIASED), "delete")
      == (Remove(ONE_DATABASE, "a"), Session(false, ALIASED), ResultReply(true))
  {
    AliasedIsValid();
    GateDeletes(cfg);
  }

  /** A connection that has just arrived, with two frames to read. */
  lemma Arrives(cfg: Config, peer: Cidr.Ip, bytes: seq<Octet>)
    requires cfg.whitelist == []
    ensures Sound(Initial(cfg, EMPTY))
    ensures var steps := [Accept(peer), Deliver(0, bytes)];
      var last := After(cfg, ALIASING, Initial(cfg, EMPTY), steps);
      && last.Some? && Ready(last.value, 0) && |last.value.conns| == 1 && last.value.store == EMPTY
      && last.value.conns[0].session == FRESH_SESSION && last.value.conns[0].line.unread == bytes
  {
    var s := Initial(cfg, EMPTY);
    var t := Apply(cfg, ALIASING, s, Accept(peer));
    ApplyKeepsSound(cfg, ALIASING, s, Accept(peer));
    ApplyKeepsSound(cfg, ALIASING, t, Deliver(0, bytes));
    AfterTwo(cfg, ALIASING, s, Accept(peer), Deliver(0, bytes));
    assert [] + bytes == bytes;
  }

  /** With a lone connection and no other deletion than its own, the handle cached under `a/` is
      on a file that the folder no longer holds. */
  lemma AliasOutlivesOwnDeletion(cfg: Config, peer: Cidr.Ip) returns (steps: seq<Step>)
    requires cfg.auth == "" && cfg.whitelist == [] && cfg.maxPacket >= 1
    ensures Sound(Initial(cfg, EMPTY)) && After(cfg, ALIASING, Initial(cfg, EMPTY), steps).Some?
    ensures var s := After(cfg, ALIASING, Initial(cfg, EMPTY), steps).value;
      && |s.conns| == 1 && s.conns[0].phase.Reading? && "a/" in s.conns[0].session.cache
      && !Freshness.Current(s.store, "a/", s.conns[0].session.cache["a/"].id)
  {
    var s := Initial(cfg, EMPTY);
    var arrival := [Accept(peer), Deliver(0, Frame([1]) + (Frame([2]) + []))];
    Arrives(cfg, peer, Frame([1]) + (Frame([2]) + []));
    var t := After(cfg, ALIASING, s, arrival).value;
    var first := ServesOneFrame(cfg, ALIASING, t, 0, [1], Frame([2]) + []);
    OpensAlias(cfg);
    var u := After(cfg, ALIASING, t, first).value;
    var second := ServesOneFrame(cfg, ALIASING, u, 0, [2], []);
    DeletesEntry(cfg);
    AfterConcat(cfg, ALIASING, t, first, second);
    AfterConcat(cfg, ALIASING, s, arrival, first + second);
    steps := arrival + (first + second);
    Names.TrailingSeparatorIsSafe();
  }
}
