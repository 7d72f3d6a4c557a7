/** Values that a misplaced placeholder loses: for every way of misplacing one, except right after
    a minus sign, a value whose literal runs into what stands before or after it. */
module SqlSpoilers {
  import opened Basics
  import opened SqlLexer
  import opened SqlBinder
  import opened SqlLiterals
  import opened SqlMeaning

  /** So many parameters, all the same. */
  function Same(p: Param, n: nat): seq<Param> { seq(n, _ => p) }

  lemma SameBinds(m: string, p: Param, next: nat, n: nat)
    requires IsFront(m) && Bound(m, next, n) && n < USIZE_LIMIT
    ensures RustReplaced(m, Same(p, n), next) == Literal(p)
    ensures Replacement(Placeholder(m), Same(p, n), next) == LiteralTokens(p)
    ensures Advance(m, Same(p, n), next) == Taken(m, next)
  {
    if m == "?" {
      assert m[1..] == "";
    }
  }

  // -------------------------------------------------------------------------
  // A pending token keeps its text
  // -------------------------------------------------------------------------

  /** States whose pending text ends up in the next token. */
  predicate Texty(kind: Kind) {
    kind == Name || kind == LoneX || kind == Zero || kind == Kind.Int || kind == HexMark || kind == HexInt
    || kind == Dot || kind == Frac || kind == ExpMark || kind == ExpSign || kind == Exp || kind == BadNumber
    || kind == InQuote || kind == QuoteEnd || kind == Bracket || kind == BlobBody || kind == BadBlob
    || kind == Mark || kind == NamedVar
  }

  predicate Keeps(st: State, t: string) {
    Texty(st.kind) && t <= st.text && (st.kind == ExpSign ==> |t| < |st.text|)
  }

  predicate StartsWith(tokens: seq<Token>, t: string) {
    tokens != [] && !tokens[0].Placeholder? && t <= tokens[0].text
  }

  lemma FlushKeeps(st: State, t: string)
    requires Keeps(st, t)
    ensures StartsWith(Flush(st), t)
  {}

  lemma ExtendTexty(st: State, c: char)
    requires Texty(st.kind) && st.kind != ExpSign && Extend(st, c).Some?
    ensures var (st', tokens) := Extend(st, c).value;
      if tokens == [] then Texty(st'.kind) && st'.text == st.text + [c]
      else !tokens[0].Placeholder? && tokens[0].text == st.text + [c]
  {
    if st.kind == InQuote || st.kind == QuoteEnd || st.kind == Bracket || st.kind == BlobBody || st.kind == BadBlob {
      ExtendQuoted(st, c);
    } else {
      ExtendWord(st, c);
    }
  }

  lemma ExtendQuoted(st: State, c: char)
    requires st.kind == InQuote || st.kind == QuoteEnd || st.kind == Bracket || st.kind == BlobBody || st.kind == BadBlob
    requires Extend(st, c).Some?
    ensures var (st', tokens) := Extend(st, c).value;
      if tokens == [] then Texty(st'.kind) && st'.text == st.text + [c]
      else !tokens[0].Placeholder? && tokens[0].text == st.text + [c]
  {}

  lemma ExtendWord(st: State, c: char)
    requires Texty(st.kind) && st.kind != ExpSign && Extend(st, c).Some?
    requires st.kind != InQuote && st.kind != QuoteEnd && st.kind != Bracket && st.kind != BlobBody && st.kind != BadBlob
    ensures var (st', tokens) := Extend(st, c).value; tokens == [] && Texty(st'.kind) && st'.text == st.text + [c]
  {}

  lemma ExtendKeeps(st: State, c: char, t: string)
    requires Keeps(st, t) && Extend(st, c).Some?
    ensures var (st', tokens) := Extend(st, c).value;
      if tokens == [] then Keeps(st', t) else StartsWith(tokens, t)
  {
    assert t <= st.text + [c];
    if st.kind != ExpSign {
      ExtendTexty(st, c);
    }
  }

  lemma StepKeeps(st: State, c: char, t: string)
    requires Keeps(st, t)
    ensures var (st', tokens) := Step(st, c);
      if tokens == [] then Keeps(st', t) else StartsWith(tokens, t)
  {
    FlushKeeps(st, t);
    if !IsNul(c) && Extend(st, c).Some? {
      ExtendKeeps(st, c, t);
    }
  }

  lemma {:induction false} FirstTokenKeeps(st: State, s: string, t: string)
    requires Keeps(st, t)
    ensures StartsWith(Emit(st, s), t)
    decreases |s|
  {
    if s == "" {
      FlushKeeps(st, t);
    } else {
      StepKeeps(st, s[0], t);
      if Step(st, s[0]).1 == [] {
        FirstTokenKeeps(Step(st, s[0]).0, s[1..], t);
      }
    }
  }

  lemma SubstKeepsFirst(tokens: seq<Token>, params: seq<Param>, next: nat)
    requires tokens != [] && !tokens[0].Placeholder?
    ensures Subst(tokens, params, next) != [] && Subst(tokens, params, next)[0] == tokens[0]
  {}

  // -------------------------------------------------------------------------
  // A placeholder inside or right after a token
  // -------------------------------------------------------------------------

  /** A literal that runs into the pending token. */
  function Intruder(st: State): Param { if st.kind == QuoteEnd then Text("") else Param.Int(1) }

  function IntruderHead(st: State): char { if st.kind == QuoteEnd then '\'' else '1' }

  lemma IntruderExtends(st: State)
    requires Reached(st) && Texty(st.kind) && !LeftSafe(st)
    ensures var c := IntruderHead(st);
      !IsNul(c) && Extend(st, c).Some? && Extend(st, c).value.1 == [] && Keeps(Extend(st, c).value.0, st.text + [c])
  {}

  /** The template's own next token either stops before the placeholder or contains its mark. */
  lemma TemplateToken(st: State, s: string)
    requires Reached(st) && Texty(st.kind) && !LeftSafe(st)
    ensures var tokens := Emit(st, "?" + s);
      && tokens != [] && !tokens[0].Placeholder?
      && !(st.text + [IntruderHead(st)] <= tokens[0].text)
  {
    assert "?" + s == ['?'] + s;
    if Extend(st, '?').Some? {
      MarkInside(st, s);
    } else {
      EmitCons(st, '?', s);
      assert |Flush(st)[0].text| <= |st.text|;
    }
  }

  /** The token goes on with the mark, which no literal starts with. */
  lemma MarkInside(st: State, s: string)
    requires Reached(st) && Texty(st.kind) && !LeftSafe(st) && Extend(st, '?').Some?
    ensures var tokens := Emit(st, ['?'] + s);
      && tokens != [] && !tokens[0].Placeholder?
      && !(st.text + [IntruderHead(st)] <= tokens[0].text)
  {
    var st' := Extend(st, '?').value.0;
    var t := st.text + ['?'];
    MarkExtends(st);
    Next(st, '?', s, st');
    FirstTokenKeeps(st', s, t);
    var text := Emit(st', s)[0].text;
    assert text[|st.text|] == t[|st.text|];
  }

  lemma MarkExtends(st: State)
    requires Reached(st) && Texty(st.kind) && !LeftSafe(st) && Extend(st, '?').Some?
    ensures Extend(st, '?').value.1 == [] && Keeps(Extend(st, '?').value.0, st.text + ['?'])
  {
    MarkTakers(st);
    ExtendQuoted(st, '?');
  }

  /** Only quoted text takes a mark in. */
  lemma MarkTakers(st: State)
    requires Reached(st) && Texty(st.kind) && Extend(st, '?').Some?
    ensures st.kind == InQuote || st.kind == Bracket || st.kind == BlobBody || st.kind == BadBlob
    ensures Extend(st, '?').value.1 == [] && Extend(st, '?').value.0.kind != ExpSign
  {}

  lemma SmallIntruders(st: State)
    ensures Literal(Intruder(st)) != "" && Literal(Intruder(st))[0] == IntruderHead(st) && NulFree(Intruder(st))
  {
    SmallLiterals();
  }

  lemma IntruderSpoils(st: State, m: string, rest: string, x: string, next: nat, n: nat)
    requires Reached(st) && Texty(st.kind) && !LeftSafe(st) && IsFront(m) && m[0] == '?'
    ensures var p := Intruder(st);
      Emit(st, Literal(p) + x) != Subst(Emit(st, m + rest), Same(p, n), next)
  {
    var p, c := Intruder(st), IntruderHead(st);
    SmallIntruders(st);
    IntruderExtends(st);
    FirstThen(Literal(p), x);
    Next(st, c, Literal(p)[1..] + x, Extend(st, c).value.0);
    FirstTokenKeeps(Extend(st, c).value.0, Literal(p)[1..] + x, st.text + [c]);
    FirstThen(m, rest);
    assert "?" + (m[1..] + rest) == [m[0]] + (m[1..] + rest);
    TemplateToken(st, m[1..] + rest);
    SubstKeepsFirst(Emit(st, m + rest), Same(p, n), next);
  }

  // -------------------------------------------------------------------------
  // A placeholder inside a comment
  // -------------------------------------------------------------------------

  function Semicolons(n: nat): string { if n == 0 then "" else ";" + Semicolons(n - 1) }

  /** A text that leaves any comment and goes on with `n` tokens. */
  function Escapee(n: nat): Param { Text("*/\n" + Semicolons(n)) }

  lemma SemicolonFirst(n: nat, s: string)
    requires n > 0
    ensures Semicolons(n) + s == [';'] + (Semicolons(n - 1) + s)
  {}

  lemma EmitSemicolon(s: string)
    ensures Emit(INITIAL, [';'] + s) == [Op([';'])] + Emit(INITIAL, s)
  {
    EmitCons(INITIAL, ';', s);
  }

  lemma {:induction false} EmitSemicolons(n: nat, s: string)
    ensures |Emit(INITIAL, Semicolons(n) + s)| >= n
  {
    if n > 0 {
      EmitSemicolons(n - 1, s);
      SemicolonFirst(n, s);
      EmitSemicolon(Semicolons(n - 1) + s);
    }
  }

  lemma {:induction false} OnlySemicolons(n: nat)
    ensures forall i :: 0 <= i < |Semicolons(n)| ==> Semicolons(n)[i] == ';'
  {
    if n > 0 {
      OnlySemicolons(n - 1);
    }
  }

  lemma {:induction false} EscapeNoQuote(s: string)
    requires forall i :: 0 <= i < |s| ==> s[i] != '\''
    ensures Escape(s) == s
  {
    if s != "" {
      EscapeNoQuote(s[1..]);
    }
  }

  lemma EscapeePlain(n: nat)
    ensures NulFree(Escapee(n))
    ensures Literal(Escapee(n)) == "'*/\n" + (Semicolons(n) + "'")
  {
    OnlySemicolons(n);
    EscapeNoQuote("*/\n" + Semicolons(n));
    assert "'" + ("*/\n" + Semicolons(n)) + "'" == "'*/\n" + (Semicolons(n) + "'");
  }

  lemma EscapeChars(s: string)
    ensures "'*/\n" + s == ['\''] + (['*'] + (['/'] + (['\n'] + s)))
  {}

  lemma LineCommentLeft(st: State, s: string)
    requires st.kind == LineComment
    ensures Emit(st, "'*/\n" + s) == Emit(INITIAL, s)
  {
    EscapeChars(s);
    Next(st, '\'', ['*'] + (['/'] + (['\n'] + s)), st);
    Next(st, '*', ['/'] + (['\n'] + s), st);
    Next(st, '/', ['\n'] + s, st);
    Next(st, '\n', s, INITIAL);
  }

  lemma BlockCommentLeft(st: State, s: string)
    requires st.kind == BlockStart || st.kind == Block || st.kind == BlockStar
    ensures Emit(st, "'*/\n" + s) == Emit(INITIAL, s)
  {
    EscapeChars(s);
    Next(st, '\'', ['*'] + (['/'] + (['\n'] + s)), State(Block, ""));
    BlockEnds(['\n'] + s);
    First('\n', s, INITIAL);
  }

  lemma BlockEnds(s: string)
    ensures Emit(State(Block, ""), ['*'] + (['/'] + s)) == Emit(INITIAL, s)
  {
    Next(State(Block, ""), '*', ['/'] + s, State(BlockStar, ""));
    Next(State(BlockStar, ""), '/', s, INITIAL);
  }

  lemma {:induction false} SubstCounts(tokens: seq<Token>, k: nat, next: nat, n: nat)
    ensures |Subst(tokens, Same(Escapee(k), n), next)| == |tokens|
  {
    if tokens != [] {
      SubstCounts(tokens[1..], k, if tokens[0] == Placeholder("?") && next < n then next + 1 else next, n);
    }
  }

  lemma Nested(a: string, b: string, c: string, d: string)
    ensures (a + (b + c)) + d == a + (b + (c + d))
  {}

  lemma EscapeeEscapes(st: State, n: nat, x: string)
    requires Commenting(st.kind)
    ensures |Emit(st, Literal(Escapee(n)) + x)| >= n
  {
    EscapeePlain(n);
    Nested("'*/\n", Semicolons(n), "'", x);
    if st.kind == LineComment {
      LineCommentLeft(st, Semicolons(n) + ("'" + x));
    } else {
      BlockCommentLeft(st, Semicolons(n) + ("'" + x));
    }
    EmitSemicolons(n, "'" + x);
  }

  lemma EscapeeSpoils(st: State, template: string, x: string, next: nat, n: nat)
    requires Commenting(st.kind)
    ensures var p := Escapee(|Emit(st, template)| + 1);
      Emit(st, Literal(p) + x) != Subst(Emit(st, template), Same(p, n), next)
  {
    var k := |Emit(st, template)| + 1;
    EscapeeEscapes(st, k, x);
    SubstCounts(Emit(st, template), k, next, n);
  }

  // -------------------------------------------------------------------------
  // A placeholder right before a token
  // -------------------------------------------------------------------------

  /** A literal that the character after it runs into. */
  function Neighbour(c: char): Param {
    if c == '\'' then Text("") else if c == '.' || c == '1' then Param.Int(1) else Param.Null
  }

  lemma OneMeets(c: char, y: string)
    requires c == '.' || c == '1'
    ensures StartsWith(Emit(INITIAL, "1" + ([c] + y)), "1" + [c])
  {
    var st' := State(if c == '.' then Frac else Kind.Int, "1" + [c]);
    assert "1" + ([c] + y) == ['1'] + ([c] + y);
    First('1', [c] + y, State(Kind.Int, "1"));
    Next(State(Kind.Int, "1"), c, y, st');
    FirstTokenKeeps(st', y, "1" + [c]);
  }

  lemma QuoteMeets(y: string)
    ensures StartsWith(Emit(INITIAL, "''" + (['\''] + y)), "''" + ['\''])
  {
    var one, two := State(InQuote, "'"), State(QuoteEnd, "'" + ['\'']);
    var three := State(InQuote, "'" + ['\''] + ['\'']);
    assert "''" + (['\''] + y) == ['\''] + (['\''] + (['\''] + y));
    First('\'', ['\''] + (['\''] + y), one);
    Next(one, '\'', ['\''] + y, two);
    Next(two, '\'', y, three);
    FirstTokenKeeps(three, y, three.text);
    assert three.text == "''" + ['\''];
  }

  lemma NullMeets(c: char, y: string)
    requires IsIdChar(c)
    ensures StartsWith(Emit(INITIAL, "NULL" + ([c] + y)), "NULL" + [c])
  {
    ReadNull([c] + y);
    Next(State(Name, "NULL"), c, y, State(Name, "NULL" + [c]));
    FirstTokenKeeps(State(Name, "NULL" + [c]), y, "NULL" + [c]);
  }

  lemma NeighbourMeets(c: char, y: string)
    requires !RightSafe(c)
    ensures StartsWith(Emit(INITIAL, Literal(Neighbour(c)) + ([c] + y)), Literal(Neighbour(c)) + [c])
  {
    SmallLiterals();
    if c == '\'' {
      QuoteMeets(y);
    } else if c == '.' || c == '1' {
      OneMeets(c, y);
    } else {
      NullMeets(c, y);
    }
  }

  lemma NeighbourIsOneToken(c: char)
    ensures var p := Neighbour(c);
      NulFree(p) && Literal(p) != "" && |LiteralTokens(p)| == 1 && LiteralTokens(p)[0].text == Literal(p)
  {
    SmallLiterals();
  }

  lemma NeighbourSpoils(st: State, m: string, rest: string, c: char, y: string, next: nat, n: nat)
    requires IsFront(m) && Bound(m, next, n) && n < USIZE_LIMIT
    requires Literal(Neighbour(c)) != "" && EndsAt(st, Literal(Neighbour(c))[0]) && EndsAt(st, '?')
    requires !RightSafe(c) && (rest != "" ==> !IsDigit(rest[0]))
    ensures var p := Neighbour(c);
      Emit(st, Literal(p) + ([c] + y)) != Subst(Emit(st, m + rest), Same(p, n), next)
  {
    var p := Neighbour(c);
    NeighbourIsOneToken(c);
    NeighbourMeets(c, y);
    FirstThen(Literal(p), [c] + y);
    EmitFresh(st, Literal(p) + ([c] + y));
    SameBinds(m, p, next, n);
    TemplateSide(st, m, rest, Same(p, n), next);
    var left := Emit(INITIAL, Literal(p) + ([c] + y));
    var right := LiteralTokens(p) + Subst(Emit(INITIAL, rest), Same(p, n), Advance(m, Same(p, n), next));
    assert |left[0].text| > |right[0].text|;
    Differ(Flush(st), left, right);
  }

  lemma Differ(a: seq<Token>, x: seq<Token>, y: seq<Token>)
    requires x != y
    ensures a + x != a + y
  {
    if |x| == |y| {
      var i :| 0 <= i < |x| && x[i] != y[i];
      assert (a + x)[|a| + i] == x[i] && (a + y)[|a| + i] == y[i];
    }
  }

  // -------------------------------------------------------------------------
  // A placeholder right after one that has no parameter
  // -------------------------------------------------------------------------

  lemma {:induction false} MarkKeeps(t: string, s: string)
    ensures var tokens := Emit(State(Question, t), s); tokens != [] && tokens[0].Placeholder? && t <= tokens[0].text
    decreases |s|
  {
    if s != "" && IsDigit(s[0]) {
      MarkKeeps(t + [s[0]], s[1..]);
    }
  }

  lemma MarkTakesOne(st: State, x: string)
    requires st.kind == Question
    ensures var tokens := Emit(st, "1" + x);
      tokens != [] && tokens[0].Placeholder? && st.text + ['1'] <= tokens[0].text
  {
    assert "1" + x == ['1'] + x;
    Next(st, '1', x, State(Question, st.text + ['1']));
    MarkKeeps(st.text + ['1'], x);
  }

  lemma MarkSpoils(st: State, m: string, rest: string, x: string, next: nat, n: nat)
    requires st.kind == Question && IsDead(st.text, next, n) && IsFront(m) && m[0] == '?'
    ensures var p := Param.Int(1);
      Emit(st, Literal(p) + x) != Subst(Emit(st, m + rest), Same(p, n), next)
  {
    SmallLiterals();
    var t := st.text;
    MarkTakesOne(st, x);
    assert (m + rest)[0] == '?';
    EmitFresh(st, m + rest);
    InertStays(Placeholder(t), Same(Param.Int(1), n), next);
    SubstFirst(Placeholder(t), Emit(INITIAL, m + rest), Same(Param.Int(1), n), next);
  }

  // -------------------------------------------------------------------------
  // The first misplaced placeholder
  // -------------------------------------------------------------------------

  /** Like `SafeFrom`, but a placeholder may also stand right after a minus sign. */
  predicate LooseFrom(st: State, sql: string, next: nat, n: nat)
    decreases |sql|
  {
    if sql == "" || IsNul(sql[0]) then true
    else if sql[0] == '?' then
      var m, rest := sql[..Width(sql)], sql[Width(sql)..];
      if Bound(m, next, n) then
        && (LeftSafe(st) || st.kind == Minus) && RightClear(rest, Taken(m, next), n)
        && LooseFrom(INITIAL, rest, Taken(m, next), n)
      else LooseFrom(Final(st, m), rest, next, n)
    else LooseFrom(Step(st, sql[0]).0, sql[1..], next, n)
  }

  /** The state of a tokenizer that has met no NUL. */
  predicate Alive(st: State, sql: string, next: nat, n: nat) {
    Reached(st) && st.kind != Halt && Settled(st, sql, next, n)
  }

  lemma StepAlive(st: State, sql: string, next: nat, n: nat)
    requires Alive(st, sql, next, n) && sql != "" && sql[0] != '?' && !IsNul(sql[0])
    ensures Inert(Step(st, sql[0]).1, next, n) && Alive(Step(st, sql[0]).0, sql[1..], next, n)
  {
    StepWithoutPlaceholder(st, sql[0], next, n);
    ReachedAlways(st, sql[0]);
    NotHalted(st, sql[0]);
  }

  lemma NotHalted(st: State, c: char)
    requires st.kind != Halt && !IsNul(c)
    ensures Step(st, c).0.kind != Halt
  {}

  lemma {:induction false} FinalAlive(st: State, s: string)
    requires Reached(st) && st.kind != Halt && forall i :: 0 <= i < |s| ==> !IsNul(s[i])
    ensures Reached(Final(st, s)) && Final(st, s).kind != Halt
    decreases |s|
  {
    if s != "" {
      ReachedAlways(st, s[0]);
      NotHalted(st, s[0]);
      FinalAlive(Step(st, s[0]).0, s[1..]);
    }
  }

  lemma DeadAlive(st: State, sql: string, next: nat, n: nat)
    requires Alive(st, sql, next, n) && sql != "" && IsDead(sql[..Width(sql)], next, n)
    ensures var m, rest := sql[..Width(sql)], sql[Width(sql)..];
      Inert(Emitted(st, m), next, n) && Alive(Final(st, m), rest, next, n)
  {
    var m, rest := sql[..Width(sql)], sql[Width(sql)..];
    SplitFront(sql);
    ReadDead(st, m, rest, next, n);
    assert forall i :: 1 <= i < |m| ==> m[i] == m[1..][i - 1];
    FinalAlive(st, m);
  }

  /** The value that spoils the pending token, comment or placeholder. */
  function Spoiler(st: State, template: string): Param {
    if Commenting(st.kind) then Escapee(|Emit(st, template)| + 1)
    else if st.kind == Question then Param.Int(1)
    else Intruder(st)
  }

  lemma LeftUnsafe(st: State, m: string, rest: string, x: string, next: nat, n: nat)
    requires Alive(st, m + rest, next, n) && !LeftSafe(st) && st.kind != Minus
    requires IsFront(m) && m[0] == '?'
    ensures var p := Spoiler(st, m + rest);
      Harmless(p) && Emit(st, Literal(p) + x) != Subst(Emit(st, m + rest), Same(p, n), next)
  {
    if Commenting(st.kind) {
      EscapeePlain(|Emit(st, m + rest)| + 1);
      EscapeeSpoils(st, m + rest, x, next, n);
    } else if st.kind == Question {
      SmallLiterals();
      MarkSpoils(st, m, rest, x, next, n);
    } else {
      SmallIntruders(st);
      IntruderSpoils(st, m, rest, x, next, n);
    }
  }

  /** A value whose literal may follow a minus sign. */
  predicate Harmless(p: Param) { NulFree(p) && Literal(p) != "" && Literal(p)[0] != '-' }

  lemma BoundFront(sql: string, p: Param, next: nat, n: nat)
    requires sql != "" && Bound(sql[..Width(sql)], next, n) && n < USIZE_LIMIT
    ensures RustBind(sql, Same(p, n), next)
      == Literal(p) + RustBind(sql[Width(sql)..], Same(p, n), Taken(sql[..Width(sql)], next))
  {
    BindFront(sql, Same(p, n), next);
    SameBinds(sql[..Width(sql)], p, next, n);
  }

  /** The first character that follows in the bound text. */
  function Touching(rest: string): char
    requires rest != ""
  {
    if rest[0] == '?' then '1' else rest[0]
  }

  lemma BoundRest(rest: string, next: nat, n: nat) returns (y: string)
    requires !RightClear(rest, next, n) && n < USIZE_LIMIT
    ensures rest != "" && !RightSafe(Touching(rest))
    ensures RustBind(rest, Same(Neighbour(Touching(rest)), n), next) == [Touching(rest)] + y
  {
    var p := Neighbour(Touching(rest));
    if rest[0] == '?' {
      SmallLiterals();
      BoundFront(rest, p, next, n);
      y := RustBind(rest[Width(rest)..], Same(p, n), Taken(rest[..Width(rest)], next));
    } else {
      BindFront(rest, Same(p, n), next);
      assert rest[..1] == [rest[0]];
      y := RustBind(rest[1..], Same(p, n), next);
    }
  }

  /** Where a literal that is no negative number may start. */
  lemma LooseEnds(st: State, p: Param)
    requires (LeftSafe(st) || st.kind == Minus) && (Harmless(p) || LeftSafe(st))
    ensures Literal(p) != "" && EndsAt(st, Literal(p)[0]) && EndsAt(st, '?')
  {
    LiteralHead(p);
  }

  lemma NeighbourIsHarmless(c: char)
    ensures Harmless(Neighbour(c))
  {
    SmallLiterals();
  }

  lemma RightUnsafe(st: State, m: string, rest: string, next: nat, n: nat) returns (p: Param)
    requires (LeftSafe(st) || st.kind == Minus) && IsFront(m) && Bound(m, next, n) && n < USIZE_LIMIT
    requires !RightClear(rest, Taken(m, next), n) && (rest != "" ==> !IsDigit(rest[0]))
    ensures Harmless(p)
    ensures Emit(st, Literal(p) + RustBind(rest, Same(p, n), Taken(m, next)))
      != Subst(Emit(st, m + rest), Same(p, n), next)
  {
    p := Neighbour(Touching(rest));
    var c := Touching(rest);
    NeighbourIsHarmless(c);
    LooseEnds(st, p);
    var y := BoundRest(rest, Taken(m, next), n);
    NeighbourSpoils(st, m, rest, c, y, next, n);
  }

  /** A placeholder placed well enough for the value carries a difference behind it to the front. */
  lemma DifferenceCarries(st: State, m: string, rest: string, bound: string, p: Param, next: nat, n: nat)
    requires (LeftSafe(st) || st.kind == Minus) && IsFront(m) && Bound(m, next, n)
    requires Harmless(p) && n < USIZE_LIMIT
    requires RightSafeText(rest) && RightSafeText(bound)
    requires Emit(INITIAL, bound) != Subst(Emit(INITIAL, rest), Same(p, n), Taken(m, next))
    ensures Emit(st, Literal(p) + bound) != Subst(Emit(st, m + rest), Same(p, n), next)
  {
    SameBinds(m, p, next, n);
    LooseEnds(st, p);
    BoundSide(st, m, bound, Same(p, n), next);
    RightSafeIsNoDigit(rest);
    TemplateSide(st, m, rest, Same(p, n), next);
    var y := Subst(Emit(INITIAL, rest), Same(p, n), Taken(m, next));
    Differ(LiteralTokens(p), Emit(INITIAL, bound), y);
    Differ(Flush(st), LiteralTokens(p) + Emit(INITIAL, bound), LiteralTokens(p) + y);
  }

  /** In a template with a placeholder misplaced other than by a minus sign, the first such is lost
      for some value. */
  lemma {:induction false} Spoils(st: State, sql: string, next: nat, n: nat) returns (p: Param)
    requires Alive(st, sql, next, n) && !LooseFrom(st, sql, next, n) && n < USIZE_LIMIT
    ensures Harmless(p)
    ensures Emit(st, RustBind(sql, Same(p, n), next)) != Subst(Emit(st, sql), Same(p, n), next)
    decreases |sql|
  {
    if sql[0] != '?' {
      var (st', tokens) := Step(st, sql[0]);
      StepAlive(st, sql, next, n);
      p := Spoils(st', sql[1..], next, n);
      CharSides(st, sql, Same(p, n), next);
      Differ(tokens, Emit(st', RustBind(sql[1..], Same(p, n), next)), Subst(Emit(st', sql[1..]), Same(p, n), next));
    } else if IsDead(sql[..Width(sql)], next, n) {
      var m, rest := sql[..Width(sql)], sql[Width(sql)..];
      DeadAlive(st, sql, next, n);
      p := Spoils(Final(st, m), rest, next, n);
      DeadSides(st, sql, Same(p, n), next);
      Differ(Emitted(st, m), Emit(Final(st, m), RustBind(rest, Same(p, n), next)),
             Subst(Emit(Final(st, m), rest), Same(p, n), next));
    } else {
      p := SpoilsAtPlaceholder(st, sql, next, n);
    }
  }

  lemma SpoilsAtPlaceholder(st: State, sql: string, next: nat, n: nat) returns (p: Param)
    requires Alive(st, sql, next, n) && !LooseFrom(st, sql, next, n) && n < USIZE_LIMIT
    requires Bound(sql[..Width(sql)], next, n)
    ensures Harmless(p)
    ensures Emit(st, RustBind(sql, Same(p, n), next)) != Subst(Emit(st, sql), Same(p, n), next)
    decreases |sql|, 0
  {
    var m, rest := sql[..Width(sql)], sql[Width(sql)..];
    var after := Taken(m, next);
    SplitFront(sql);
    if !LeftSafe(st) && st.kind != Minus {
      p := Spoiler(st, sql);
      BoundFront(sql, p, next, n);
      LeftUnsafe(st, m, rest, RustBind(rest, Same(p, n), after), next, n);
    } else if !RightClear(rest, after, n) {
      p := RightUnsafe(st, m, rest, next, n);
      BoundFront(sql, p, next, n);
    } else {
      p := Spoils(INITIAL, rest, after, n);
      BoundFront(sql, p, next, n);
      BoundHead(rest, Same(p, n), after);
      DifferenceCarries(st, m, rest, RustBind(rest, Same(p, n), after), p, next, n);
    }
  }
}
