/** A placeholder right after a minus sign: `-?` is harmless for most values, but a negative number
    turns it into a comment. Comparing the values -1 and -11 shows that the meaning is then lost
    for one of them: the second makes the expected tokens longer by one digit for each
    placeholder, and the tokens really read by less. */
module SqlMinus {
  import opened Basics
  import opened SqlLexer
  import opened SqlBinder
  import opened SqlLiterals
  import opened SqlMeaning
  import opened SqlSpoilers
  import Decimal

  const SHORT: Param := Param.Int(-1)

  const LONG: Param := Param.Int(-11)

  lemma NegativeLiterals()
    ensures Literal(SHORT) == "-1" && Literal(LONG) == "-11"
    ensures LiteralTokens(SHORT) == [Op("-"), Number("1")] && LiteralTokens(LONG) == [Op("-"), Number("11")]
  {
    assert Decimal.Print(1) == "1";
    assert Decimal.Print(11) == "11" by {
      assert Decimal.Print(11) == Decimal.Print(1) + "1";
    }
    assert "-" + "1" == "-1" && "-" + "11" == "-11";
  }

  function TextLen(tokens: seq<Token>): nat {
    if tokens == [] then 0 else |tokens[0].text| + TextLen(tokens[1..])
  }

  lemma {:induction false} TextLenConcat(a: seq<Token>, b: seq<Token>)
    ensures TextLen(a + b) == TextLen(a) + TextLen(b)
  {
    if a == [] {
      assert a + b == b;
    } else {
      assert (a + b)[1..] == a[1..] + b;
      TextLenConcat(a[1..], b);
    }
  }

  lemma TextLenThree(a: seq<Token>, b: seq<Token>, c: seq<Token>)
    ensures TextLen(a + (b + c)) == TextLen(a) + TextLen(b) + TextLen(c)
  {
    TextLenConcat(b, c);
    TextLenConcat(a, b + c);
  }

  /** Placeholders that are bound, up to a NUL. */
  function Marks(sql: string, next: nat, n: nat): nat
    decreases |sql|
  {
    if sql == "" || IsNul(sql[0]) then 0
    else
      var m, rest := sql[..Width(sql)], sql[Width(sql)..];
      if Bound(m, next, n) then 1 + Marks(rest, Taken(m, next), n) else Marks(rest, next, n)
  }

  // -------------------------------------------------------------------------
  // Two tokenizers that differ only in how much text is pending
  // -------------------------------------------------------------------------

  /** The second has at least as much text pending; otherwise they behave the same. */
  predicate Alike(a: State, b: State) {
    && Reached(a) && Reached(b) && a.kind == b.kind && |a.text| <= |b.text|
    && (a.kind == InQuote || a.kind == QuoteEnd ==> a.text[0] == b.text[0])
    && (a.kind == ExpSign ==> a.text[|a.text| - 1] == b.text[|b.text| - 1])
  }

  /** How much more text the second has, pending and emitted. */
  function Lead(a: State, ta: seq<Token>, b: State, tb: seq<Token>): int {
    TextLen(tb) + |b.text| - TextLen(ta) - |a.text|
  }

  lemma OneToken(t: Token)
    ensures TextLen([t]) == |t.text|
  {
    assert [t][1..] == [];
  }

  lemma FlushAlike(a: State, b: State)
    requires Alike(a, b)
    ensures TextLen(Flush(b)) - TextLen(Flush(a)) <= |b.text| - |a.text|
  {
    FlushLength(a);
    FlushLength(b);
  }

  /** The pending text is what is flushed, for most kinds. */
  predicate Silent(kind: Kind) { kind == Start || Commenting(kind) || kind == Halt }

  lemma FlushLength(st: State)
    requires Reached(st)
    ensures if Silent(st.kind) then TextLen(Flush(st)) == (if st.kind == BlockStart then 2 else 0)
      else TextLen(Flush(st)) == |st.text|
  {
    if st.kind == ExpSign {
      var front, last := Illegal(st.text[..|st.text| - 1]), Op([st.text[|st.text| - 1]]);
      OneToken(last);
      assert [front, last][1..] == [last];
    } else if st.kind == BlockStart {
      OneToken(Op("*"));
      assert [Op("/"), Op("*")][1..] == [Op("*")];
    } else if !Silent(st.kind) {
      OneToken(Flush(st)[0]);
    }
  }

  /** A character extends both pending tokens or neither, into the same kind. */
  lemma ExtendKinds(a: State, b: State, c: char)
    requires Alike(a, b)
    ensures Extend(a, c).None? <==> Extend(b, c).None?
    ensures Extend(a, c).Some? ==>
      && Extend(a, c).value.0.kind == Extend(b, c).value.0.kind
      && |Extend(a, c).value.1| == |Extend(b, c).value.1| <= 1
  {}

  lemma ExtendGrows(a: State, b: State, c: char)
    requires Alike(a, b) && Extend(a, c).Some? && Extend(b, c).Some?
    ensures |Extend(a, c).value.0.text| <= |Extend(b, c).value.0.text|
  {}

  lemma ExtendHeads(a: State, b: State, c: char)
    requires Alike(a, b) && Extend(a, c).Some? && Extend(b, c).Some?
    requires Extend(a, c).value.0.kind == Extend(b, c).value.0.kind
    requires Reached(Extend(a, c).value.0) && Reached(Extend(b, c).value.0)
    ensures Alike(Extend(a, c).value.0, Extend(b, c).value.0)
  {
    ExtendGrows(a, b, c);
    if a.kind == InQuote || a.kind == QuoteEnd {
      assert Extend(a, c).value.0.text == a.text + [c] && Extend(b, c).value.0.text == b.text + [c];
    } else if Extend(a, c).value.0.kind == ExpSign {
      assert Extend(a, c).value.0.text == a.text + [c] && Extend(b, c).value.0.text == b.text + [c];
    }
  }

  lemma ExtendLengths(a: State, b: State, c: char)
    requires Alike(a, b) && Extend(a, c).Some? && Extend(b, c).Some?
    requires |Extend(a, c).value.1| == |Extend(b, c).value.1| <= 1
    ensures var (a', ta) := Extend(a, c).value;
      var (b', tb) := Extend(b, c).value;
      |b'.text| - |a'.text| + (if ta == [] then 0 else |tb[0].text| - |ta[0].text|) <= |b.text| - |a.text|
  {}

  lemma FreshAlike(a: State, b: State, c: char)
    requires Alike(a, b) && Extend(a, c).None? && Extend(b, c).None? && !IsNul(c)
    ensures var ((a', ta), (b', tb)) := (Step(a, c), Step(b, c));
      Alike(a', b') && Lead(a', ta, b', tb) <= |b.text| - |a.text|
  {
    FlushAlike(a, b);
    TextLenConcat(Flush(a), Begin(c).1);
    TextLenConcat(Flush(b), Begin(c).1);
    ReachedAlways(a, c);
    BeginPending(c);
  }

  lemma BeginPending(c: char)
    ensures Begin(c).0.kind != ExpSign && Reached(Begin(c).0)
  {}

  lemma StepAlike(a: State, b: State, c: char)
    requires Alike(a, b)
    ensures var ((a', ta), (b', tb)) := (Step(a, c), Step(b, c));
      Alike(a', b') && Lead(a', ta, b', tb) <= |b.text| - |a.text|
  {
    if IsNul(c) {
      FlushAlike(a, b);
    } else {
      ExtendKinds(a, b, c);
      if Extend(a, c).None? {
        FreshAlike(a, b, c);
      } else {
        ExtendReaches(a, c);
        ExtendReaches(b, c);
        ExtendHeads(a, b, c);
        ExtendLengths(a, b, c);
        ReachedAlways(a, c);
        ReachedAlways(b, c);
        LeadOfOne(Extend(a, c).value, Extend(b, c).value);
      }
    }
  }

  lemma LeadOfOne(x: (State, seq<Token>), y: (State, seq<Token>))
    requires |x.1| == |y.1| <= 1
    ensures Lead(x.0, x.1, y.0, y.1)
      == |y.0.text| - |x.0.text| + (if x.1 == [] then 0 else |y.1[0].text| - |x.1[0].text|)
  {
    if x.1 != [] {
      assert x.1 == [x.1[0]] && y.1 == [y.1[0]];
      OneToken(x.1[0]);
      OneToken(y.1[0]);
    }
  }

  lemma {:induction false} RunAlike(a: State, b: State, s: string)
    requires Alike(a, b)
    ensures Alike(Final(a, s), Final(b, s))
    ensures Lead(Final(a, s), Emitted(a, s), Final(b, s), Emitted(b, s)) <= |b.text| - |a.text|
    decreases |s|
  {
    if s != "" {
      var ((a', ta), (b', tb)) := (Step(a, s[0]), Step(b, s[0]));
      StepAlike(a, b, s[0]);
      RunAlike(a', b', s[1..]);
      TextLenConcat(ta, Emitted(a', s[1..]));
      TextLenConcat(tb, Emitted(b', s[1..]));
    }
  }

  // -------------------------------------------------------------------------
  // One more digit
  // -------------------------------------------------------------------------

  predicate TakesMinus(kind: Kind) {
    kind == Minus || kind == LineComment || kind == ExpSign || kind == InQuote || kind == Bracket || kind == BadBlob
    || kind == Block || kind == Halt
  }

  predicate TakesDigits(st: State) {
    st.kind == Kind.Int || st.kind == LineComment || st.kind == Exp || st.kind == InQuote || st.kind == Bracket
    || st.kind == BadBlob || (st.kind == Block && st.text == "") || st.kind == Halt
  }

  lemma AfterMinus(st: State)
    requires Reached(st)
    ensures TakesMinus(Step(st, '-').0.kind)
  {}

  lemma AfterMinusDigit(st: State)
    requires Reached(st) && TakesMinus(st.kind)
    ensures TakesDigits(Step(st, '1').0)
  {}

  lemma OneMoreDigit(st: State)
    requires Reached(st) && TakesDigits(st)
    ensures var (st', tokens) := Step(st, '1'); tokens == [] && Alike(st, st') && |st'.text| <= |st.text| + 1
  {}

  lemma ReadMinusOne(st: State)
    requires Reached(st)
    ensures Reached(Final(st, "-1")) && TakesDigits(Final(st, "-1"))
  {
    AfterMinus(st);
    ReachedAlways(st, '-');
    AfterMinusDigit(Step(st, '-').0);
    ReachedAlways(Step(st, '-').0, '1');
    assert "-1"[1..] == "1" && "1"[1..] == "";
  }

  lemma {:induction false} Appended(st: State, a: string, b: string)
    ensures Final(st, a + b) == Final(Final(st, a), b)
    ensures Emitted(st, a + b) == Emitted(st, a) + Emitted(Final(st, a), b)
    decreases |a|
  {
    if a == "" {
      assert "" + b == b;
    } else {
      FirstThen(a, b);
      Appended(Step(st, a[0]).0, a[1..], b);
      assert (a + b)[1..] == a[1..] + b;
    }
  }

  /** Reading -11 is reading -1 and one more digit. */
  lemma ReadMinusEleven(st: State)
    requires Reached(st)
    ensures Final(st, "-11") == Step(Final(st, "-1"), '1').0 && Emitted(st, "-11") == Emitted(st, "-1")
    ensures Alike(Final(st, "-1"), Final(st, "-11")) && |Final(st, "-11").text| <= |Final(st, "-1").text| + 1
  {
    ReadMinusOne(st);
    OneMoreDigit(Final(st, "-1"));
    OneCharacter(Final(st, "-1"), '1');
    assert "-11" == "-1" + "1";
    Appended(st, "-1", "1");
    assert Emitted(st, "-1") + [] == Emitted(st, "-1");
  }

  lemma OneCharacter(st: State, c: char)
    ensures Final(st, [c]) == Step(st, c).0 && Emitted(st, [c]) == Step(st, c).1
  {
    assert [c][1..] == "";
    assert Step(st, c).1 + [] == Step(st, c).1;
  }

  /** The longer value leads by one more character at most. */
  lemma ValuesAlike(a: State, b: State)
    requires Alike(a, b)
    ensures Alike(Final(a, "-1"), Final(b, "-11"))
    ensures Lead(Final(a, "-1"), Emitted(a, "-1"), Final(b, "-11"), Emitted(b, "-11")) <= |b.text| - |a.text| + 1
  {
    RunAlike(a, b, "-1");
    ReadMinusEleven(b);
    AlikeTwice(Final(a, "-1"), Final(b, "-1"), Final(b, "-11"));
  }

  lemma AlikeTwice(a: State, b: State, c: State)
    requires Alike(a, b) && Alike(b, c)
    ensures Alike(a, c)
  {}

  // -------------------------------------------------------------------------
  // Growth of the tokens read
  // -------------------------------------------------------------------------

  lemma FrontAlike(a: State, b: State, m: string, s: string, t: string, more: nat)
    requires Alike(a, b)
    requires TextLen(Emit(Final(b, m), t)) - TextLen(Emit(Final(a, m), s))
      <= |Final(b, m).text| - |Final(a, m).text| + more
    ensures TextLen(Emit(b, m + t)) - TextLen(Emit(a, m + s)) <= |b.text| - |a.text| + more
  {
    RunAlike(a, b, m);
    EmitAppend(a, m, s);
    EmitAppend(b, m, t);
    TextLenConcat(Emitted(a, m), Emit(Final(a, m), s));
    TextLenConcat(Emitted(b, m), Emit(Final(b, m), t));
  }

  lemma MarkAlike(a: State, b: State, s: string, t: string, more: nat)
    requires Alike(a, b)
    requires TextLen(Emit(Final(b, "-11"), t)) - TextLen(Emit(Final(a, "-1"), s))
      <= |Final(b, "-11").text| - |Final(a, "-1").text| + more
    ensures TextLen(Emit(b, "-11" + t)) - TextLen(Emit(a, "-1" + s)) <= |b.text| - |a.text| + more + 1
  {
    ValuesAlike(a, b);
    EmitAppend(a, "-1", s);
    EmitAppend(b, "-11", t);
    TextLenConcat(Emitted(a, "-1"), Emit(Final(a, "-1"), s));
    TextLenConcat(Emitted(b, "-11"), Emit(Final(b, "-11"), t));
  }

  lemma PlainFront(sql: string, p: Param, next: nat, n: nat)
    requires sql != "" && !Bound(sql[..Width(sql)], next, n) && n < USIZE_LIMIT
    ensures RustBind(sql, Same(p, n), next) == sql[..Width(sql)] + RustBind(sql[Width(sql)..], Same(p, n), next)
  {
    BindFront(sql, Same(p, n), next);
    if sql[0] == '?' {
      DeadStays(sql[..Width(sql)], Same(p, n), next);
    }
  }

  /** Whatever the state, the tokens read grow by at most one character for each placeholder. */
  lemma {:induction false} Growth(a: State, b: State, sql: string, next: nat, n: nat)
    requires Alike(a, b) && n < USIZE_LIMIT
    ensures TextLen(Emit(b, RustBind(sql, Same(LONG, n), next))) - TextLen(Emit(a, RustBind(sql, Same(SHORT, n), next)))
      <= |b.text| - |a.text| + Marks(sql, next, n)
    decreases |sql|
  {
    if sql == "" {
      FlushAlike(a, b);
    } else if IsNul(sql[0]) {
      PlainFront(sql, LONG, next, n);
      PlainFront(sql, SHORT, next, n);
      NulEnds(a, RustBind(sql, Same(SHORT, n), next));
      NulEnds(b, RustBind(sql, Same(LONG, n), next));
      FlushAlike(a, b);
    } else {
      var m, rest := sql[..Width(sql)], sql[Width(sql)..];
      if Bound(m, next, n) {
        var after := Taken(m, next);
        NegativeLiterals();
        ValuesAlike(a, b);
        BoundFront(sql, LONG, next, n);
        BoundFront(sql, SHORT, next, n);
        Growth(Final(a, "-1"), Final(b, "-11"), rest, after, n);
        MarkAlike(a, b, RustBind(rest, Same(SHORT, n), after), RustBind(rest, Same(LONG, n), after),
                  Marks(rest, after, n));
      } else {
        RunAlike(a, b, m);
        PlainFront(sql, LONG, next, n);
        PlainFront(sql, SHORT, next, n);
        Growth(Final(a, m), Final(b, m), rest, next, n);
        FrontAlike(a, b, m, RustBind(rest, Same(SHORT, n), next), RustBind(rest, Same(LONG, n), next),
                   Marks(rest, next, n));
      }
    }
  }

  // -------------------------------------------------------------------------
  // Growth of the tokens expected
  // -------------------------------------------------------------------------

  function Expected(st: State, sql: string, p: Param, next: nat, n: nat): nat {
    TextLen(Subst(Emit(st, sql), Same(p, n), next))
  }

  lemma ExpectedAtMark(st: State, sql: string, next: nat, n: nat)
    requires sql != "" && Bound(sql[..Width(sql)], next, n)
    requires RightClear(sql[Width(sql)..], Taken(sql[..Width(sql)], next), n)
    requires EndsAt(st, '?') && n < USIZE_LIMIT
    ensures var m, rest := sql[..Width(sql)], sql[Width(sql)..];
      var after := Taken(m, next);
      && Expected(st, sql, SHORT, next, n) == TextLen(Flush(st)) + 2 + Expected(INITIAL, rest, SHORT, after, n)
      && Expected(st, sql, LONG, next, n) == TextLen(Flush(st)) + 3 + Expected(INITIAL, rest, LONG, after, n)
  {
    var m, rest := sql[..Width(sql)], sql[Width(sql)..];
    SplitFront(sql);
    NegativeLiterals();
    ExpectedOf(st, m, rest, SHORT, next, n);
    ExpectedOf(st, m, rest, LONG, next, n);
    TextLenPair("1");
    TextLenPair("11");
  }

  lemma ExpectedOf(st: State, m: string, rest: string, p: Param, next: nat, n: nat)
    requires IsFront(m) && Bound(m, next, n) && EndsAt(st, '?') && n < USIZE_LIMIT
    requires rest != "" ==> !IsDigit(rest[0])
    ensures Expected(st, m + rest, p, next, n)
      == TextLen(Flush(st)) + TextLen(LiteralTokens(p)) + Expected(INITIAL, rest, p, Taken(m, next), n)
  {
    SameBinds(m, p, next, n);
    TemplateSide(st, m, rest, Same(p, n), next);
    TextLenThree(Flush(st), LiteralTokens(p), Subst(Emit(INITIAL, rest), Same(p, n), Advance(m, Same(p, n), next)));
  }

  lemma TextLenPair(digits: string)
    ensures TextLen([Op("-"), Number(digits)]) == 1 + |digits|
  {
    assert [Op("-"), Number(digits)] == [Op("-")] + [Number(digits)];
    OneToken(Op("-"));
    OneToken(Number(digits));
    TextLenConcat([Op("-")], [Number(digits)]);
  }

  /** The tokens expected grow by exactly one character for each placeholder. */
  lemma {:induction false} ExpectedGrowth(st: State, sql: string, next: nat, n: nat)
    requires Alive(st, sql, next, n) && LooseFrom(st, sql, next, n) && n < USIZE_LIMIT
    ensures Expected(st, sql, LONG, next, n) == Expected(st, sql, SHORT, next, n) + Marks(sql, next, n)
    decreases |sql|
  {
    if sql == "" || IsNul(sql[0]) {
      BindEnd(st, sql, Same(LONG, n), next);
      BindEnd(st, sql, Same(SHORT, n), next);
    } else if sql[0] != '?' {
      var (st', tokens) := Step(st, sql[0]);
      StepAlive(st, sql, next, n);
      ExpectedGrowth(st', sql[1..], next, n);
      CharSides(st, sql, Same(LONG, n), next);
      CharSides(st, sql, Same(SHORT, n), next);
      TextLenConcat(tokens, Subst(Emit(st', sql[1..]), Same(LONG, n), next));
      TextLenConcat(tokens, Subst(Emit(st', sql[1..]), Same(SHORT, n), next));
    } else if IsDead(sql[..Width(sql)], next, n) {
      var m, rest := sql[..Width(sql)], sql[Width(sql)..];
      DeadAlive(st, sql, next, n);
      ExpectedGrowth(Final(st, m), rest, next, n);
      DeadSides(st, sql, Same(LONG, n), next);
      DeadSides(st, sql, Same(SHORT, n), next);
      TextLenConcat(Emitted(st, m), Subst(Emit(Final(st, m), rest), Same(LONG, n), next));
      TextLenConcat(Emitted(st, m), Subst(Emit(Final(st, m), rest), Same(SHORT, n), next));
    } else {
      var m, rest := sql[..Width(sql)], sql[Width(sql)..];
      LooseEnds(st, Param.Int(1));
      ExpectedAtMark(st, sql, next, n);
      ExpectedGrowth(INITIAL, rest, Taken(m, next), n);
    }
  }

  // -------------------------------------------------------------------------
  // The placeholder after the minus sign is lost
  // -------------------------------------------------------------------------

  function Actual(st: State, sql: string, p: Param, next: nat, n: nat): nat {
    TextLen(Emit(st, RustBind(sql, Same(p, n), next)))
  }

  lemma ActualAtSafeMark(st: State, m: string, bound: string, p: Param, next: nat, n: nat)
    requires LeftSafe(st) && IsFront(m) && Bound(m, next, n) && NulFree(p) && n < USIZE_LIMIT
    requires RightSafeText(bound)
    ensures TextLen(Emit(st, Literal(p) + bound))
      == TextLen(Flush(st)) + TextLen(LiteralTokens(p)) + TextLen(Emit(INITIAL, bound))
  {
    SameBinds(m, p, next, n);
    LiteralHead(p);
    LeftSafeEndsAt(st, Literal(p)[0]);
    BoundSide(st, m, bound, Same(p, n), next);
    TextLenThree(Flush(st), LiteralTokens(p), Emit(INITIAL, bound));
  }

  /** At a left-safe placeholder the longer value makes the tokens read longer by one. */
  lemma ActualAtMark(st: State, sql: string, next: nat, n: nat)
    requires sql != "" && Bound(sql[..Width(sql)], next, n)
    requires RightClear(sql[Width(sql)..], Taken(sql[..Width(sql)], next), n)
    requires LeftSafe(st) && n < USIZE_LIMIT
    ensures var m, rest := sql[..Width(sql)], sql[Width(sql)..];
      var after := Taken(m, next);
      Actual(st, sql, LONG, next, n) - Actual(st, sql, SHORT, next, n)
      == 1 + Actual(INITIAL, rest, LONG, after, n) - Actual(INITIAL, rest, SHORT, after, n)
  {
    var m, rest := sql[..Width(sql)], sql[Width(sql)..];
    var after := Taken(m, next);
    NegativeLiterals();
    BoundFront(sql, LONG, next, n);
    BoundFront(sql, SHORT, next, n);
    BoundHead(rest, Same(LONG, n), after);
    BoundHead(rest, Same(SHORT, n), after);
    ActualAtSafeMark(st, m, RustBind(rest, Same(LONG, n), after), LONG, next, n);
    ActualAtSafeMark(st, m, RustBind(rest, Same(SHORT, n), after), SHORT, next, n);
    TextLenPair("1");
    TextLenPair("11");
  }

  lemma MinusComments(st: State, digits: string, b: string)
    requires st.kind == Minus && AllDigits(digits)
    ensures Emit(st, ("-" + digits) + b) == Emit(State(LineComment, ""), b)
  {
    assert ("-" + digits) + b == ['-'] + (digits + b);
    Next(st, '-', digits + b, State(LineComment, ""));
    CommentTakesDigits(digits, b);
  }

  lemma {:induction false} CommentTakesDigits(digits: string, b: string)
    requires AllDigits(digits)
    ensures Emit(State(LineComment, ""), digits + b) == Emit(State(LineComment, ""), b)
    decreases |digits|
  {
    if digits == "" {
      assert digits + b == b;
    } else {
      FirstThen(digits, b);
      Next(State(LineComment, ""), digits[0], digits[1..] + b, State(LineComment, ""));
      CommentTakesDigits(digits[1..], b);
    }
  }

  lemma VanishesAfterMinus(st: State, sql: string, p: Param, digits: string, next: nat, n: nat)
    requires sql != "" && Bound(sql[..Width(sql)], next, n) && n < USIZE_LIMIT
    requires st.kind == Minus && AllDigits(digits) && Literal(p) == "-" + digits
    ensures Actual(st, sql, p, next, n)
      == TextLen(Emit(State(LineComment, ""),
                      RustBind(sql[Width(sql)..], Same(p, n), Taken(sql[..Width(sql)], next))))
  {
    var m, rest := sql[..Width(sql)], sql[Width(sql)..];
    BoundFront(sql, p, next, n);
    MinusComments(st, digits, RustBind(rest, Same(p, n), Taken(m, next)));
  }

  /** After a minus sign the value vanishes in a comment, whatever its length. */
  lemma ActualAfterMinus(st: State, sql: string, next: nat, n: nat)
    requires sql != "" && Bound(sql[..Width(sql)], next, n)
    requires st.kind == Minus && n < USIZE_LIMIT
    ensures Actual(st, sql, LONG, next, n) - Actual(st, sql, SHORT, next, n)
      <= Marks(sql[Width(sql)..], Taken(sql[..Width(sql)], next), n)
  {
    NegativeLiterals();
    assert "-" + "11" == "-11" && "-" + "1" == "-1";
    VanishesAfterMinus(st, sql, LONG, "11", next, n);
    VanishesAfterMinus(st, sql, SHORT, "1", next, n);
    var comment := State(LineComment, "");
    Growth(comment, comment, sql[Width(sql)..], Taken(sql[..Width(sql)], next), n);
  }

  /** In a template whose placeholders are misplaced only by minus signs, the tokens read grow by
      less than one character for each placeholder. */
  lemma {:induction false} ActualLags(st: State, sql: string, next: nat, n: nat)
    requires Alive(st, sql, next, n) && LooseFrom(st, sql, next, n) && !SafeFrom(st, sql, next, n) && n < USIZE_LIMIT
    ensures Actual(st, sql, LONG, next, n) - Actual(st, sql, SHORT, next, n) < Marks(sql, next, n)
    decreases |sql|
  {
    if sql[0] != '?' {
      var (st', tokens) := Step(st, sql[0]);
      StepAlive(st, sql, next, n);
      ActualLags(st', sql[1..], next, n);
      CharSides(st, sql, Same(LONG, n), next);
      CharSides(st, sql, Same(SHORT, n), next);
      TextLenConcat(tokens, Emit(st', RustBind(sql[1..], Same(LONG, n), next)));
      TextLenConcat(tokens, Emit(st', RustBind(sql[1..], Same(SHORT, n), next)));
    } else if IsDead(sql[..Width(sql)], next, n) {
      var m, rest := sql[..Width(sql)], sql[Width(sql)..];
      DeadAlive(st, sql, next, n);
      ActualLags(Final(st, m), rest, next, n);
      DeadSides(st, sql, Same(LONG, n), next);
      DeadSides(st, sql, Same(SHORT, n), next);
      TextLenConcat(Emitted(st, m), Emit(Final(st, m), RustBind(rest, Same(LONG, n), next)));
      TextLenConcat(Emitted(st, m), Emit(Final(st, m), RustBind(rest, Same(SHORT, n), next)));
    } else if LeftSafe(st) {
      var m, rest := sql[..Width(sql)], sql[Width(sql)..];
      ActualAtMark(st, sql, next, n);
      ActualLags(INITIAL, rest, Taken(m, next), n);
    } else {
      ActualAfterMinus(st, sql, next, n);
    }
  }
}
