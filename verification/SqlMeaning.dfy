/** Binding preserves lexical meaning: tokenizing the bound SQL gives the template's tokens
    with each bound placeholder replaced by the tokens of its value's literal. */
module SqlMeaning {
  import opened Basics
  import opened SqlLexer
  import opened SqlBinder
  import opened SqlLiterals
  import Decimal

  // -------------------------------------------------------------------------
  // Side conditions
  // -------------------------------------------------------------------------

  /** Where a placeholder may start: after a complete token, a name in double quotes or
      backquotes, or an operator that no literal can extend. Not inside a string, a name or a
      comment, and not right after a word, a number, a string, another placeholder, `-` or `.`. */
  predicate LeftSafe(st: State) {
    match st.kind
    case Start => true
    case Arrow => true
    case Less => true
    case Greater => true
    case Equal => true
    case Bang => true
    case Bar => true
    case Slash => true
    case QuoteEnd => st.text != "" && (st.text[0] == '"' || st.text[0] == '`')
    case _ => false
  }

  /** With `n` parameters, of which the bare placeholders so far have taken `next`, this one is bound. */
  predicate Bound(m: string, next: nat, n: nat)
    requires IsFront(m)
  {
    m[0] == '?' && (if |m| == 1 then next < n else 1 <= Decimal.Value(m[1..]) <= n)
  }

  /** How many parameters the bare placeholders have taken after a bound one. */
  function Taken(m: string, next: nat): nat { if m == "?" then next + 1 else next }

  /** What follows a placeholder in the template cannot run into a literal: it is right-safe and not
      replaced by a literal itself. */
  predicate RightClear(rest: string, next: nat, n: nat) {
    rest != "" ==> RightSafe(rest[0]) && !Bound(rest[..Width(rest)], next, n)
  }

  /** Every placeholder that is bound starts at a left-safe point and has a clear right; one without
      a parameter is ordinary text, and nothing after a NUL matters. */
  predicate SafeFrom(st: State, sql: string, next: nat, n: nat)
    decreases |sql|
  {
    if sql == "" || IsNul(sql[0]) then true
    else if sql[0] == '?' then
      var m, rest := sql[..Width(sql)], sql[Width(sql)..];
      if Bound(m, next, n) then
        LeftSafe(st) && RightClear(rest, Taken(m, next), n) && SafeFrom(INITIAL, rest, Taken(m, next), n)
      else SafeFrom(Final(st, m), rest, next, n)
    else SafeFrom(Step(st, sql[0]).0, sql[1..], next, n)
  }

  /** The placeholders that `n` parameters bind are well placed. */
  predicate Safe(sql: string, n: nat) { SafeFrom(INITIAL, sql, 0, n) }

  predicate AllNulFree(params: seq<Param>) { forall i :: 0 <= i < |params| ==> NulFree(params[i]) }

  // -------------------------------------------------------------------------
  // Substitution on tokens
  // -------------------------------------------------------------------------

  /** The tokens a placeholder stands for; a placeholder without a parameter stays. */
  function Replacement(t: Token, params: seq<Param>, next: nat): seq<Token> {
    match t
    case Placeholder(text) =>
      (match Choice(text, next, |params|)
       case Some(i) => LiteralTokens(params[i])
       case None => [t])
    case _ => [t]
  }

  function Subst(tokens: seq<Token>, params: seq<Param>, next: nat): seq<Token> {
    if tokens == [] then []
    else Replacement(tokens[0], params, next)
         + Subst(tokens[1..], params, if tokens[0] == Placeholder("?") && next < |params| then next + 1 else next)
  }

  /** The text of a placeholder that has no parameter. */
  predicate IsDead(text: string, next: nat, n: nat) { IsFront(text) && text[0] == '?' && !Bound(text, next, n) }

  /** No parameter replaces these tokens. */
  predicate Inert(tokens: seq<Token>, next: nat, n: nat) {
    forall i :: 0 <= i < |tokens| ==> tokens[i].Placeholder? ==> IsDead(tokens[i].text, next, n)
  }

  lemma InertStays(t: Token, params: seq<Param>, next: nat)
    requires t.Placeholder? ==> IsDead(t.text, next, |params|)
    ensures Replacement(t, params, next) == [t] && !(t == Placeholder("?") && next < |params|)
  {
    assert "?"[1..] == "" && Decimal.Value("") == 0;
  }

  lemma {:induction false} SubstSkips(a: seq<Token>, b: seq<Token>, params: seq<Param>, next: nat)
    requires Inert(a, next, |params|)
    ensures Subst(a + b, params, next) == a + Subst(b, params, next)
  {
    if a == [] {
      assert a + b == b;
    } else {
      SliceConcat(a, b, 1);
      InertStays(a[0], params, next);
      SubstSkips(a[1..], b, params, next);
      FirstThen(a, Subst(b, params, next));
    }
  }

  lemma SubstFirst(t: Token, b: seq<Token>, params: seq<Param>, next: nat)
    ensures Subst([t] + b, params, next)
      == Replacement(t, params, next)
         + Subst(b, params, if t == Placeholder("?") && next < |params| then next + 1 else next)
  {
    assert ([t] + b)[1..] == b;
  }

  // -------------------------------------------------------------------------
  // The theorem
  // -------------------------------------------------------------------------

  /** A pending placeholder is one that has no parameter, and is complete. */
  predicate Settled(st: State, s: string, next: nat, n: nat) {
    st.kind == Question ==> IsDead(st.text, next, n) && (s != "" ==> !IsDigit(s[0]))
  }

  lemma FlushIsInert(st: State, next: nat, n: nat)
    requires st.kind == Question ==> IsDead(st.text, next, n)
    ensures Inert(Flush(st), next, n)
  {}

  lemma StepWithoutPlaceholder(st: State, c: char, next: nat, n: nat)
    requires c != '?' && Settled(st, [c], next, n)
    ensures Step(st, c).0.kind != Question && Inert(Step(st, c).1, next, n)
  {
    FlushIsInert(st, next, n);
    if !IsNul(c) && Extend(st, c).Some? {
      ExtendWithoutPlaceholder(st, c, next, n);
    }
  }

  lemma ExtendWithoutPlaceholder(st: State, c: char, next: nat, n: nat)
    requires c != '?' && Settled(st, [c], next, n) && Extend(st, c).Some?
    ensures Extend(st, c).value.0.kind != Question && Inert(Extend(st, c).value.1, next, n)
  {}

  lemma {:induction false} DigitsElsewhere(st: State, digits: string, next: nat, n: nat)
    requires AllDigits(digits) && st.kind != Question
    ensures Final(st, digits).kind != Question && Inert(Emitted(st, digits), next, n)
    decreases |digits|
  {
    if digits != "" {
      StepWithoutPlaceholder(st, digits[0], next, n);
      DigitsElsewhere(Step(st, digits[0]).0, digits[1..], next, n);
    }
  }

  lemma {:induction false} DigitsAfterMark(t: string, digits: string)
    requires AllDigits(digits)
    ensures Final(State(Question, t), digits) == State(Question, t + digits)
    ensures Emitted(State(Question, t), digits) == []
    decreases |digits|
  {
    if digits == "" {
      assert t + digits == t;
    } else {
      DigitsAfterMark(t + [digits[0]], digits[1..]);
      assert (t + [digits[0]]) + digits[1..] == t + digits;
    }
  }

  lemma StepMark(st: State, next: nat, n: nat)
    requires st.kind == Question ==> IsDead(st.text, next, n)
    ensures var (st', tokens) := Step(st, '?');
      Inert(tokens, next, n) && (st'.kind == Question ==> st' == State(Question, "?"))
  {
    FlushIsInert(st, next, n);
  }

  /** A placeholder that has no parameter is read as part of what it stands in, or alone. */
  lemma ReadDead(st: State, m: string, rest: string, next: nat, n: nat)
    requires IsDead(m, next, n) && Settled(st, m + rest, next, n) && (rest != "" ==> !IsDigit(rest[0]))
    ensures Inert(Emitted(st, m), next, n) && Settled(Final(st, m), rest, next, n)
  {
    StepMark(st, next, n);
    var (st', tokens) := Step(st, '?');
    if st'.kind == Question {
      DigitsAfterMark("?", m[1..]);
      assert "?" + m[1..] == m;
    } else {
      DigitsElsewhere(st', m[1..], next, n);
    }
    assert Emitted(st, m) == tokens + Emitted(st', m[1..]);
  }

  lemma {:induction false} HaltSwallows(s: string)
    ensures Emit(State(Halt, ""), s) == []
    decreases |s|
  {
    if s != "" {
      HaltSwallows(s[1..]);
      assert Step(State(Halt, ""), s[0]).1 == [];
    }
  }

  lemma NulEnds(st: State, s: string)
    requires s != "" && IsNul(s[0])
    ensures Emit(st, s) == Flush(st)
  {
    HaltSwallows(s[1..]);
    assert Flush(st) + [] == Flush(st);
  }

  predicate LiteralStart(c: char) { IsDigit(c) || c == 'N' || c == 'X' || c == '-' || c == '\'' }

  lemma LiteralHead(p: Param)
    ensures Literal(p) != "" && LiteralStart(Literal(p)[0])
  {}

  lemma LeftSafeEnds(st: State, s: string)
    requires LeftSafe(st) && s != "" && (LiteralStart(s[0]) || s[0] == '?')
    ensures Emit(st, s) == Flush(st) + Emit(INITIAL, s)
  {
    EmitFresh(st, s);
  }

  lemma {:induction false} ScanQuestion(t: string, digits: string, b: string)
    requires AllDigits(digits) && (b != "" ==> !IsDigit(b[0]))
    ensures Emit(State(Question, t), digits + b) == [Placeholder(t + digits)] + Emit(INITIAL, b)
    decreases |digits|
  {
    if digits == "" {
      assert digits + b == b && t + digits == t;
      EmitFresh(State(Question, t), b);
    } else {
      FirstThen(digits, b);
      Next(State(Question, t), digits[0], digits[1..] + b, State(Question, t + [digits[0]]));
      ScanQuestion(t + [digits[0]], digits[1..], b);
      assert (t + [digits[0]]) + digits[1..] == t + digits;
    }
  }

  lemma ScanPlaceholder(m: string, b: string)
    requires IsFront(m) && m[0] == '?' && (b != "" ==> !IsDigit(b[0]))
    ensures Emit(INITIAL, m + b) == [Placeholder(m)] + Emit(INITIAL, b)
  {
    FirstThen(m, b);
    First('?', m[1..] + b, State(Question, "?"));
    ScanQuestion("?", m[1..], b);
    assert "?" + m[1..] == m;
  }

  lemma RightSafeIsNoDigit(b: string)
    requires RightSafeText(b)
    ensures b != "" ==> !IsDigit(b[0])
  {}

  /** A placeholder gives way to one parameter, in the text and among the tokens, or stays. */
  lemma WhatReplaces(m: string, params: seq<Param>, next: nat) returns (p: Option<Param>)
    requires IsFront(m) && m[0] == '?' && AllNulFree(params) && |params| < USIZE_LIMIT
    ensures p.Some? ==> NulFree(p.value) && RustReplaced(m, params, next) == Literal(p.value)
                        && Replacement(Placeholder(m), params, next) == LiteralTokens(p.value)
    ensures p.None? ==> RustReplaced(m, params, next) == m
                        && Replacement(Placeholder(m), params, next) == [Placeholder(m)]
  {
    PickIsChoice(m, next, |params|);
    match Choice(m, next, |params|) {
      case Some(i) => p := Some(params[i]);
      case None => p := None;
    }
  }

  /** What replaces one placeholder is read as its replacement tokens. */
  lemma ScanReplaced(m: string, b: string, params: seq<Param>, next: nat)
    requires IsFront(m) && m[0] == '?' && RightSafeText(b)
    requires AllNulFree(params) && |params| < USIZE_LIMIT
    ensures Emit(INITIAL, RustReplaced(m, params, next) + b)
      == Replacement(Placeholder(m), params, next) + Emit(INITIAL, b)
  {
    RightSafeIsNoDigit(b);
    ScanPlaceholder(m, b);
    var p := WhatReplaces(m, params, next);
    if p.Some? {
      ScanLiteral(p.value, b);
    }
  }

  lemma ReplacedHead(m: string, params: seq<Param>, next: nat)
    requires IsFront(m) && m[0] == '?'
    ensures var r := RustReplaced(m, params, next); r != "" && (LiteralStart(r[0]) || r[0] == '?')
  {
    forall p: Param
      ensures Literal(p) != "" && LiteralStart(Literal(p)[0])
    {
      LiteralHead(p);
    }
  }

  lemma DeadStays(m: string, params: seq<Param>, next: nat)
    requires IsDead(m, next, |params|) && |params| < USIZE_LIMIT
    ensures RustReplaced(m, params, next) == m && Advance(m, params, next) == next
  {}

  /** The bound text starts like the template, unless a literal comes first. */
  lemma BoundHead(sql: string, params: seq<Param>, next: nat)
    requires RightClear(sql, next, |params|) && |params| < USIZE_LIMIT
    ensures RightSafeText(sql) && RightSafeText(RustBind(sql, params, next))
  {
    if sql != "" {
      BindFront(sql, params, next);
      if sql[0] == '?' {
        DeadStays(sql[..Width(sql)], params, next);
      }
    }
  }

  lemma {:induction false} BindFrom(st: State, sql: string, params: seq<Param>, next: nat)
    requires SafeFrom(st, sql, next, |params|) && Settled(st, sql, next, |params|)
    requires AllNulFree(params) && |params| < USIZE_LIMIT
    ensures Emit(st, RustBind(sql, params, next)) == Subst(Emit(st, sql), params, next)
    decreases |sql|
  {
    if sql == "" || IsNul(sql[0]) {
      BindEnd(st, sql, params, next);
    } else if sql[0] != '?' {
      var c, rest := sql[0], sql[1..];
      StepWithoutPlaceholder(st, c, next, |params|);
      BindFrom(Step(st, c).0, rest, params, next);
      BindChar(st, sql, params, next);
    } else if IsDead(sql[..Width(sql)], next, |params|) {
      var m, rest := sql[..Width(sql)], sql[Width(sql)..];
      SplitFront(sql);
      ReadDead(st, m, rest, next, |params|);
      BindFrom(Final(st, m), rest, params, next);
      BindDead(st, sql, params, next);
    } else {
      BindPlaceholder(st, sql, params, next);
    }
  }

  lemma SplitFront(sql: string)
    requires sql != ""
    ensures sql == sql[..Width(sql)] + sql[Width(sql)..]
  {}

  lemma BindEnd(st: State, sql: string, params: seq<Param>, next: nat)
    requires sql == "" || IsNul(sql[0])
    requires Settled(st, sql, next, |params|) && |params| < USIZE_LIMIT
    ensures Emit(st, RustBind(sql, params, next)) == Subst(Emit(st, sql), params, next) == Flush(st)
  {
    FlushIsInert(st, next, |params|);
    SubstSkips(Flush(st), [], params, next);
    assert Flush(st) + [] == Flush(st);
    if sql != "" {
      BindFront(sql, params, next);
      NulEnds(st, sql);
      NulEnds(st, RustBind(sql, params, next));
    }
  }

  /** One ordinary character, and what the rest becomes. */
  lemma CharSides(st: State, sql: string, params: seq<Param>, next: nat)
    requires sql != "" && sql[0] != '?' && Inert(Step(st, sql[0]).1, next, |params|) && |params| < USIZE_LIMIT
    ensures var (st', tokens) := Step(st, sql[0]);
      && Emit(st, RustBind(sql, params, next)) == tokens + Emit(st', RustBind(sql[1..], params, next))
      && Subst(Emit(st, sql), params, next) == tokens + Subst(Emit(st', sql[1..]), params, next)
  {
    var c, rest := sql[0], sql[1..];
    BindFront(sql, params, next);
    assert sql[..1] == [c];
    EmitCons(st, c, RustBind(rest, params, next));
    SubstSkips(Step(st, c).1, Emit(Step(st, c).0, rest), params, next);
  }

  lemma BindChar(st: State, sql: string, params: seq<Param>, next: nat)
    requires sql != "" && sql[0] != '?' && Inert(Step(st, sql[0]).1, next, |params|) && |params| < USIZE_LIMIT
    requires var st' := Step(st, sql[0]).0;
      Emit(st', RustBind(sql[1..], params, next)) == Subst(Emit(st', sql[1..]), params, next)
    ensures Emit(st, RustBind(sql, params, next)) == Subst(Emit(st, sql), params, next)
  {
    CharSides(st, sql, params, next);
  }

  /** A placeholder that has no parameter, and what the rest becomes. */
  lemma DeadSides(st: State, sql: string, params: seq<Param>, next: nat)
    requires sql != "" && IsDead(sql[..Width(sql)], next, |params|) && |params| < USIZE_LIMIT
    requires Inert(Emitted(st, sql[..Width(sql)]), next, |params|)
    ensures var m, rest := sql[..Width(sql)], sql[Width(sql)..];
      && Emit(st, RustBind(sql, params, next)) == Emitted(st, m) + Emit(Final(st, m), RustBind(rest, params, next))
      && Subst(Emit(st, sql), params, next) == Emitted(st, m) + Subst(Emit(Final(st, m), rest), params, next)
  {
    var m, rest := sql[..Width(sql)], sql[Width(sql)..];
    SplitFront(sql);
    BindFront(sql, params, next);
    DeadStays(m, params, next);
    EmitAppend(st, m, RustBind(rest, params, next));
    EmitAppend(st, m, rest);
    SubstSkips(Emitted(st, m), Emit(Final(st, m), rest), params, next);
  }

  lemma BindDead(st: State, sql: string, params: seq<Param>, next: nat)
    requires sql != "" && IsDead(sql[..Width(sql)], next, |params|) && |params| < USIZE_LIMIT
    requires Inert(Emitted(st, sql[..Width(sql)]), next, |params|)
    requires var st' := Final(st, sql[..Width(sql)]);
      var rest := sql[Width(sql)..];
      Emit(st', RustBind(rest, params, next)) == Subst(Emit(st', rest), params, next)
    ensures Emit(st, RustBind(sql, params, next)) == Subst(Emit(st, sql), params, next)
  {
    DeadSides(st, sql, params, next);
  }

  /** The pending token ends where a literal or a placeholder starts. */
  predicate EndsAt(st: State, c: char) { st.kind != Question && Extend(st, c).None? && !IsNul(c) }

  lemma LeftSafeEndsAt(st: State, c: char)
    requires LeftSafe(st) && (LiteralStart(c) || c == '?')
    ensures EndsAt(st, c)
  {}

  lemma BoundSide(st: State, m: string, b: string, params: seq<Param>, next: nat)
    requires IsFront(m) && m[0] == '?' && RightSafeText(b)
    requires RustReplaced(m, params, next) != "" && EndsAt(st, RustReplaced(m, params, next)[0])
    requires AllNulFree(params) && |params| < USIZE_LIMIT
    ensures Emit(st, RustReplaced(m, params, next) + b)
      == Flush(st) + (Replacement(Placeholder(m), params, next) + Emit(INITIAL, b))
  {
    var r := RustReplaced(m, params, next);
    assert (r + b)[0] == r[0];
    EmitFresh(st, r + b);
    ScanReplaced(m, b, params, next);
  }

  lemma TemplateSide(st: State, m: string, b: string, params: seq<Param>, next: nat)
    requires EndsAt(st, '?') && IsFront(m) && m[0] == '?' && (b != "" ==> !IsDigit(b[0])) && |params| < USIZE_LIMIT
    ensures Subst(Emit(st, m + b), params, next)
      == Flush(st) + (Replacement(Placeholder(m), params, next)
                      + Subst(Emit(INITIAL, b), params, Advance(m, params, next)))
  {
    assert (m + b)[0] == '?';
    EmitFresh(st, m + b);
    ScanPlaceholder(m, b);
    FlushIsInert(st, next, |params|);
    SubstSkips(Flush(st), [Placeholder(m)] + Emit(INITIAL, b), params, next);
    SubstFirst(Placeholder(m), Emit(INITIAL, b), params, next);
  }

  lemma BothSides(st: State, m: string, rest: string, bound: string, params: seq<Param>, next: nat)
    requires LeftSafe(st) && IsFront(m) && m[0] == '?' && RightSafeText(rest) && RightSafeText(bound)
    requires AllNulFree(params) && |params| < USIZE_LIMIT
    requires Emit(INITIAL, bound) == Subst(Emit(INITIAL, rest), params, Advance(m, params, next))
    ensures Emit(st, RustReplaced(m, params, next) + bound) == Subst(Emit(st, m + rest), params, next)
  {
    ReplacedHead(m, params, next);
    LeftSafeEndsAt(st, RustReplaced(m, params, next)[0]);
    LeftSafeEndsAt(st, '?');
    BoundSide(st, m, bound, params, next);
    RightSafeIsNoDigit(rest);
    TemplateSide(st, m, rest, params, next);
  }

  lemma BindPlaceholder(st: State, sql: string, params: seq<Param>, next: nat)
    requires sql != "" && Bound(sql[..Width(sql)], next, |params|) && SafeFrom(st, sql, next, |params|)
    requires AllNulFree(params) && |params| < USIZE_LIMIT
    ensures Emit(st, RustBind(sql, params, next)) == Subst(Emit(st, sql), params, next)
    decreases |sql|, 0
  {
    var m, rest := sql[..Width(sql)], sql[Width(sql)..];
    var after := Advance(m, params, next);
    SplitFront(sql);
    BindFrom(INITIAL, rest, params, after);
    BoundHead(rest, params, after);
    BothSides(st, m, rest, RustBind(rest, params, after), params, next);
    BindFront(sql, params, next);
  }

  /** Binding preserves the lexical meaning of a template that is safe for so many parameters. */
  lemma BindingPreservesMeaning(sql: string, params: seq<Param>)
    requires Safe(sql, |params|) && AllNulFree(params) && |params| < USIZE_LIMIT
    ensures Tokenize(RustBind(sql, params, 0)) == Subst(Tokenize(sql), params, 0)
  {
    BindFrom(INITIAL, sql, params, 0);
  }

  // -------------------------------------------------------------------------
  // The side conditions are exact, point by point
  // -------------------------------------------------------------------------

  predicate Commenting(kind: Kind) { kind == LineComment || kind == BlockStart || kind == Block || kind == BlockStar }

  /** What holds of every state the tokenizer can be in. */
  predicate Reached(st: State) {
    && (st.kind == Start || st.kind == Halt || Commenting(st.kind) || st.text != "")
    && (st.kind == QuoteEnd || st.kind == InQuote ==> st.text[0] == '\'' || st.text[0] == '"' || st.text[0] == '`')
  }

  lemma ExtendReaches(st: State, c: char)
    requires Reached(st)
    ensures Extend(st, c).Some? ==> Reached(Extend(st, c).value.0)
  {}

  lemma ReachedAlways(st: State, c: char)
    ensures Reached(INITIAL)
    ensures Reached(st) ==> Reached(Step(st, c).0)
  {
    if Reached(st) {
      ExtendReaches(st, c);
      assert Reached(Begin(c).0);
    }
  }

  lemma Alone(st: State, c: char)
    ensures Emit(st, [c]) == Step(st, c).1 + Flush(Step(st, c).0)
  {
    assert [c][1..] == "";
  }

  lemma DigitExtends(st: State)
    requires Reached(st) && !LeftSafe(st) && st.kind != Minus && st.kind != QuoteEnd
    ensures Extend(st, '1').Some? && Extend(st, '1').value.1 == []
    ensures |Flush(Extend(st, '1').value.0)| <= |Flush(st)|
  {}

  lemma DigitSpoils(st: State)
    requires Reached(st) && !LeftSafe(st) && st.kind != Minus && st.kind != QuoteEnd
    ensures |Emit(st, "1")| < |Flush(st)| + 1
  {
    DigitExtends(st);
    Alone(st, '1');
  }

  lemma CommentSwallows()
    ensures Emit(State(LineComment, ""), ['1']) == []
  {
    Alone(State(LineComment, ""), '1');
  }

  lemma MinusSpoils(st: State)
    requires st.kind == Minus
    ensures |Emit(st, ['-'] + ['1'])| < |Flush(st)| + 2
  {
    SqlLiterals.Next(st, '-', ['1'], State(LineComment, ""));
    CommentSwallows();
  }

  lemma MinusOneParts()
    ensures "-1" == ['-'] + ['1']
  {}

  lemma TwoQuotes()
    ensures "''" == ['\''] + ['\'']
  {}

  lemma QuoteSpoils(st: State)
    requires st.kind == QuoteEnd && st.text != "" && st.text[0] == '\''
    ensures |Emit(st, ['\''] + ['\''])| < |Flush(st)| + 1
  {
    var inside := State(InQuote, st.text + ['\'']);
    SqlLiterals.Next(st, '\'', ['\''], inside);
    ClosesQuote(inside);
  }

  lemma ClosesQuote(st: State)
    requires st.kind == InQuote && st.text != "" && st.text[0] == '\''
    ensures |Emit(st, ['\''])| == 1
  {
    Alone(st, '\'');
  }

  lemma SmallLiterals()
    ensures Literal(Param.Int(1)) == "1" && LiteralTokens(Param.Int(1)) == [Number("1")]
    ensures Literal(Param.Int(-1)) == "-1" && LiteralTokens(Param.Int(-1)) == [Op("-"), Number("1")]
    ensures Literal(Text("")) == "''" && LiteralTokens(Text("")) == [Str("''")]
  {
    assert Decimal.Print(1) == "1";
    assert "-" + "1" == "-1";
  }

  lemma LeftSafeLiteral(st: State, p: Param)
    requires LeftSafe(st) && NulFree(p)
    ensures Emit(st, Literal(p)) == Flush(st) + LiteralTokens(p)
  {
    LiteralHead(p);
    LeftSafeEnds(st, Literal(p));
    ScanLiteral(p, "");
    assert Literal(p) + "" == Literal(p);
    assert LiteralTokens(p) + [] == LiteralTokens(p);
  }

  /** From a reachable state every literal is read as its own tokens if and only if the state
      is left-safe. */
  lemma LeftSafeIsExact(st: State)
    requires Reached(st)
    ensures LeftSafe(st) <==> forall p: Param | NulFree(p) :: Emit(st, Literal(p)) == Flush(st) + LiteralTokens(p)
  {
    if LeftSafe(st) {
      forall p: Param | NulFree(p)
        ensures Emit(st, Literal(p)) == Flush(st) + LiteralTokens(p)
      {
        LeftSafeLiteral(st, p);
      }
    } else {
      var p := LeftUnsafeLiteral(st);
      assert NulFree(p);
    }
  }

  lemma LeftUnsafeLiteral(st: State) returns (p: Param)
    requires Reached(st) && !LeftSafe(st)
    ensures NulFree(p) && Emit(st, Literal(p)) != Flush(st) + LiteralTokens(p)
  {
    SmallLiterals();
    if st.kind == Minus {
      MinusSpoils(st);
      MinusOneParts();
      p := Param.Int(-1);
    } else if st.kind == QuoteEnd {
      QuoteSpoils(st);
      TwoQuotes();
      p := Text("");
    } else {
      DigitSpoils(st);
      p := Param.Int(1);
    }
  }

  lemma ReadNull(s: string)
    ensures Emit(INITIAL, "NULL" + s) == Emit(State(Name, "NULL"), s)
  {
    assert "NULL" + s == ['N'] + (['U'] + (['L'] + (['L'] + s)));
    assert "N" + ['U'] == "NU" && "NU" + ['L'] == "NUL" && "NUL" + ['L'] == "NULL";
    First('N', ['U'] + (['L'] + (['L'] + s)), State(Name, "N"));
    Next(State(Name, "N"), 'U', ['L'] + (['L'] + s), State(Name, "NU"));
    Next(State(Name, "NU"), 'L', ['L'] + s, State(Name, "NUL"));
    Next(State(Name, "NUL"), 'L', s, State(Name, "NULL"));
  }

  lemma WordSpoils(c: char)
    requires IsIdChar(c)
    ensures |Emit(INITIAL, "NULL" + [c])| < 1 + |Emit(INITIAL, [c])|
  {
    ReadNull([c]);
    Alone(State(Name, "NULL"), c);
    Alone(INITIAL, c);
  }

  lemma DotSpoils()
    ensures |Emit(INITIAL, "1" + ".")| < 1 + |Emit(INITIAL, ".")|
  {
    First('1', ".", State(Kind.Int, "1"));
    Alone(State(Kind.Int, "1"), '.');
    Alone(INITIAL, '.');
  }

  lemma QuoteAfterSpoils()
    ensures |Emit(INITIAL, "''" + "'")| < 1 + |Emit(INITIAL, "'")|
  {
    assert "''" + "'" == ['\''] + (['\''] + "'");
    First('\'', ['\''] + "'", State(InQuote, "'"));
    Next(State(InQuote, "'"), '\'', "'", State(QuoteEnd, "'" + ['\'']));
    Alone(State(QuoteEnd, "'" + ['\'']), '\'');
    Alone(INITIAL, '\'');
  }

  /** A character after a literal leaves every literal intact if and only if it is right-safe. */
  lemma RightSafeIsExact(c: char)
    ensures RightSafe(c) <==>
      forall p: Param | NulFree(p) :: Emit(INITIAL, Literal(p) + [c]) == LiteralTokens(p) + Emit(INITIAL, [c])
  {
    if RightSafe(c) {
      forall p: Param | NulFree(p)
        ensures Emit(INITIAL, Literal(p) + [c]) == LiteralTokens(p) + Emit(INITIAL, [c])
      {
        ScanLiteral(p, [c]);
      }
    } else {
      SmallLiterals();
      if c == '.' {
        DotSpoils();
        assert Emit(INITIAL, Literal(Param.Int(1)) + [c]) != LiteralTokens(Param.Int(1)) + Emit(INITIAL, [c]);
      } else if c == '\'' {
        QuoteAfterSpoils();
        assert Emit(INITIAL, Literal(Text("")) + [c]) != LiteralTokens(Text("")) + Emit(INITIAL, [c]);
      } else {
        WordSpoils(c);
        assert Emit(INITIAL, Literal(Param.Null) + [c]) != LiteralTokens(Param.Null) + Emit(INITIAL, [c]);
      }
    }
  }

  lemma {:induction false} NulStopsText(t: string, s: string)
    requires exists i :: 0 <= i < |s| && IsNul(s[i])
    requires t != "" && t[0] == '\''
    ensures var e := Emit(State(InQuote, t), Escape(s) + "'"); e != [] && e[0].Illegal?
    decreases |s|
  {
    EscapeFirst(s);
    var more := Escape(s[1..]) + "'";
    Regroup(Escape([s[0]]), Escape(s[1..]), "'");
    if IsNul(s[0]) {
      NulStopsHere(t, s[0], more);
    } else {
      ScanEscapedChar(t, s[0], more);
      NulStopsText(t + Escape([s[0]]), s[1..]);
    }
  }

  lemma NulStopsHere(t: string, c: char, more: string)
    requires IsNul(c)
    ensures var e := Emit(State(InQuote, t), Escape([c]) + more); e != [] && e[0].Illegal?
  {
    assert [c][1..] == "" && Escape([c]) == [c];
    EmitCons(State(InQuote, t), c, more);
  }

  /** A value's literal is read as its tokens if and only if the value holds no NUL. */
  lemma NulFreeIsExact(p: Param)
    ensures NulFree(p) <==> Emit(INITIAL, Literal(p)) == LiteralTokens(p)
  {
    if NulFree(p) {
      ScanLiteral(p, "");
      assert Literal(p) + "" == Literal(p);
      assert LiteralTokens(p) + [] == LiteralTokens(p);
    } else {
      assert Literal(p) == ['\''] + (Escape(p.s) + "'");
      First('\'', Escape(p.s) + "'", State(InQuote, "'"));
      NulStopsText("'", p.s);
    }
  }
}
