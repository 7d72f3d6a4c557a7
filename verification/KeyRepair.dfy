/** The lenient-key rewriter of `parse_request`: every match of
    `(['"])?([a-zA-Z0-9]+)(['"])?:` becomes the bare run between double quotes and a colon. */
module KeyRepair {
  import opened Basics

  predicate IsQuote(c: char) { c == '\'' || c == '"' }

  // -------------------------------------------------------------------------
  // The pattern
  // -------------------------------------------------------------------------

  /** One way of matching the pattern at the start of a string. */
  datatype Match = Match(open: bool, run: nat, close: bool) {
    function Start(): nat { if open then 1 else 0 }
    function Length(): nat { Start() + run + (if close then 1 else 0) + 1 }
  }

  /** The pattern read declaratively, with every optional part free to be taken or not. */
  predicate Fits(s: string, m: Match) {
    && m.run >= 1 && m.Length() <= |s|
    && (m.open ==> IsQuote(s[0]))
    && (forall i :: m.Start() <= i < m.Start() + m.run ==> IsAlnum(s[i]))
    && (m.close ==> IsQuote(s[m.Start() + m.run]))
    && s[m.Length() - 1] == ':'
  }

  function AlnumRun(s: string): (n: nat)
    ensures n <= |s|
    ensures forall i :: 0 <= i < n ==> IsAlnum(s[i])
    ensures n < |s| ==> !IsAlnum(s[n])
  {
    if s == "" || !IsAlnum(s[0]) then 0 else 1 + AlnumRun(s[1..])
  }

  /** The matcher: take the quote if there is one, the whole run, the quote after it, the colon. */
  function MatchAt(s: string): (r: Option<Match>)
    ensures r.Some? ==> Fits(s, r.value)
  {
    var o := if s != "" && IsQuote(s[0]) then 1 else 0;
    var n := AlnumRun(s[o..]);
    var e := o + n;
    if n > 0 && e < |s| && s[e] == ':' then Some(Match(o == 1, n, false))
    else if n > 0 && e + 1 < |s| && IsQuote(s[e]) && s[e + 1] == ':' then Some(Match(o == 1, n, true))
    else None
  }

  /** The pattern is unambiguous: whichever order the alternatives are tried in, at most one
      fits at a given place, and the matcher finds it. */
  lemma MatcherIsExact(s: string, m: Match)
    ensures Fits(s, m) <==> MatchAt(s) == Some(m)
  {
    if Fits(s, m) {
      RunEnds(s[m.Start()..], m.run);
    }
  }

  lemma {:induction false} RunEnds(s: string, n: nat)
    requires n < |s| && !IsAlnum(s[n])
    requires forall i :: 0 <= i < n ==> IsAlnum(s[i])
    ensures AlnumRun(s) == n
  {
    if n > 0 {
      RunEnds(s[1..], n - 1);
    }
  }

  /** `replace_all`: leftmost matches, left to right, without overlap. */
  function Repair(s: string): string {
    if s == "" then ""
    else match MatchAt(s)
      case Some(m) => Rewrite(s, m) + Repair(s[m.Length()..])
      case None => [s[0]] + Repair(s[1..])
  }

  function Rewrite(s: string, m: Match): string
    requires Fits(s, m)
  {
    QuotedKey(s[m.Start()..m.Start() + m.run])
  }

  function QuotedKey(key: string): string { "\"" + key + "\":" }

  predicate IsKey(key: string) {
    key != "" && forall i :: 0 <= i < |key| ==> IsAlnum(key[i])
  }

  // -------------------------------------------------------------------------
  // Which colons are rewritten
  // -------------------------------------------------------------------------

  /** The local left context that makes the character at `p` the colon of a key. */
  predicate Keyed(s: string, p: nat) {
    && p < |s| && s[p] == ':'
    && ((p >= 1 && IsAlnum(s[p - 1])) || (p >= 2 && IsQuote(s[p - 1]) && IsAlnum(s[p - 2])))
  }

  /** Whether rewriting consumes the character at `p` as the colon of a match. */
  predicate Rewritten(s: string, p: nat)
    decreases |s|
  {
    if s == "" then false
    else match MatchAt(s)
      case Some(m) => p == m.Length() - 1 || (p >= m.Length() && Rewritten(s[m.Length()..], p - m.Length()))
      case None => p >= 1 && Rewritten(s[1..], p - 1)
  }

  /** What is left of a match once its first alphanumeric is read. */
  predicate Closes(s: string) {
    if s == "" then false
    else if s[0] == ':' then true
    else if IsQuote(s[0]) then |s| > 1 && s[1] == ':'
    else IsAlnum(s[0]) && Closes(s[1..])
  }

  lemma {:induction false} ClosesByRun(s: string)
    ensures var n := AlnumRun(s);
      Closes(s) <==> (n < |s| && s[n] == ':') || (n + 1 < |s| && IsQuote(s[n]) && s[n + 1] == ':')
  {
    if s != "" && IsAlnum(s[0]) {
      ClosesByRun(s[1..]);
    }
  }

  lemma MatchByCloses(s: string)
    ensures MatchAt(s).Some? <==>
      (|s| > 0 && IsAlnum(s[0]) && Closes(s[1..]))
      || (|s| > 1 && IsQuote(s[0]) && IsAlnum(s[1]) && Closes(s[2..]))
  {
    if |s| > 0 && IsAlnum(s[0]) {
      ClosesByRun(s[1..]);
      assert s[0..] == s;
    } else if |s| > 1 && IsQuote(s[0]) && IsAlnum(s[1]) {
      ClosesByRun(s[2..]);
      assert s[1..][1..] == s[2..];
    }
  }

  lemma KeyedInMatch(s: string, m: Match, p: nat)
    requires Fits(s, m)
    ensures p < m.Length() ==> (Keyed(s, p) <==> p == m.Length() - 1)
    ensures p >= m.Length() ==> (Keyed(s, p) <==> Keyed(s[m.Length()..], p - m.Length()))
  {
    var last := m.Length() - 1;
    assert IsAlnum(s[m.Start() + m.run - 1]);
    if p < last {
      assert p < m.Start() || m.Start() <= p < m.Start() + m.run || p == m.Start() + m.run;
      assert s[p] != ':';
    }
  }

  lemma KeyedAfterOne(s: string, p: nat)
    requires s != "" && MatchAt(s).None?
    ensures Keyed(s, p) <==> p >= 1 && Keyed(s[1..], p - 1)
  {
    MatchByCloses(s);
  }

  /** A colon is rewritten exactly when its own left context says so, wherever it stands. */
  lemma {:induction false} RewrittenIffKeyed(s: string, p: nat)
    ensures Rewritten(s, p) <==> Keyed(s, p)
    decreases |s|
  {
    if s != "" {
      match MatchAt(s)
      case Some(m) =>
        KeyedInMatch(s, m, p);
        if p >= m.Length() {
          RewrittenIffKeyed(s[m.Length()..], p - m.Length());
        }
      case None =>
        KeyedAfterOne(s, p);
        if p >= 1 {
          RewrittenIffKeyed(s[1..], p - 1);
        }
    }
  }

  // -------------------------------------------------------------------------
  // Idempotence
  // -------------------------------------------------------------------------

  /** Rewriting what follows creates no new way to finish a match. */
  lemma {:induction false} RepairKeepsOpen(t: string)
    ensures Closes(Repair(t)) ==> Closes(t) && MatchAt(t).None?
  {
    if t != "" && MatchAt(t).None? {
      RepairKeepsOpen(t[1..]);
      RepairHead(t[1..]);
      assert Repair(t)[1..] == Repair(t[1..]);
    } else if t != "" {
      var m := MatchAt(t).value;
      var u := Repair(t);
      assert u[0] == '"' && u[1] == t[m.Start()];
    }
  }

  lemma RepairHead(t: string)
    ensures t == "" ==> Repair(t) == ""
    ensures t != "" ==> Repair(t) != "" && (Repair(t)[0] == t[0] || Repair(t)[0] == '"')
    ensures t != "" && Repair(t)[0] == ':' ==> t[0] == ':'
    ensures t != "" && Repair(t)[0] != '"' ==> MatchAt(t).None? && Repair(t)[1..] == Repair(t[1..])
  {}

  lemma NoNewMatch(c: char, t: string)
    requires MatchAt([c] + t).None?
    ensures MatchAt([c] + Repair(t)).None?
  {
    MatchByCloses([c] + t);
    MatchByCloses([c] + Repair(t));
    assert ([c] + t)[1..] == t && ([c] + Repair(t))[1..] == Repair(t);
    RepairHead(t);
    RepairKeepsOpen(t);
    if t != "" {
      assert ([c] + t)[2..] == t[1..] && ([c] + Repair(t))[2..] == Repair(t)[1..];
      RepairKeepsOpen(t[1..]);
    }
  }

  lemma QuotedKeyMatches(key: string, rest: string)
    requires IsKey(key)
    ensures MatchAt(QuotedKey(key) + rest) == Some(Match(true, |key|, true))
  {
    var u := QuotedKey(key) + rest;
    assert forall i :: 1 <= i < 1 + |key| ==> u[i] == key[i - 1];
    MatcherIsExact(u, Match(true, |key|, true));
  }

  lemma QuotedKeyIsFixed(key: string, rest: string)
    requires IsKey(key)
    ensures Repair(QuotedKey(key) + rest) == QuotedKey(key) + Repair(rest)
  {
    QuotedKeyMatches(key, rest);
    var u := QuotedKey(key) + rest;
    assert u[1..1 + |key|] == key;
    assert u[|key| + 3..] == rest;
  }

  lemma RepairOne(c: char, b: string)
    requires MatchAt([c] + b).None?
    ensures Repair([c] + b) == [c] + Repair(b)
  {
    assert ([c] + b)[1..] == b;
  }

  lemma MatchStaysRepaired(s: string, m: Match)
    requires MatchAt(s) == Some(m) && Repair(Repair(s[m.Length()..])) == Repair(s[m.Length()..])
    ensures Repair(Repair(s)) == Repair(s)
  {
    QuotedKeyIsFixed(s[m.Start()..m.Start() + m.run], Repair(s[m.Length()..]));
  }

  lemma OneStaysRepaired(c: char, t: string)
    requires MatchAt([c] + t).None? && Repair(Repair(t)) == Repair(t)
    ensures Repair(Repair([c] + t)) == Repair([c] + t)
  {
    RepairOne(c, t);
    NoNewMatch(c, t);
    RepairOne(c, Repair(t));
  }

  /** Repairing twice is repairing once, on every string. */
  lemma {:induction false} RepairIsIdempotent(s: string)
    ensures Repair(Repair(s)) == Repair(s)
  {
    if s != "" {
      match MatchAt(s)
      case Some(m) =>
        RepairIsIdempotent(s[m.Length()..]);
        MatchStaysRepaired(s, m);
      case None =>
        HeadTail(s);
        RepairIsIdempotent(s[1..]);
        OneStaysRepaired(s[0], s[1..]);
    }
  }
}
