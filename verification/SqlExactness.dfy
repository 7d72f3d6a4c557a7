/** The side condition of binding is exact: a template is safe for `n` parameters if and only if its
    meaning survives the binding of every list of `n` parameters. */
module SqlExactness {
  import opened Basics
  import opened SqlLexer
  import opened SqlBinder
  import opened SqlMeaning
  import opened SqlSpoilers
  import opened SqlMinus

  /** The bound text has the template's tokens, each placeholder replaced by its value's tokens. */
  predicate Preserved(sql: string, params: seq<Param>) {
    Tokenize(RustBind(sql, params, 0)) == Subst(Tokenize(sql), params, 0)
  }

  lemma SafePreserves(sql: string, params: seq<Param>)
    requires Safe(sql, |params|) && AllNulFree(params) && |params| < USIZE_LIMIT
    ensures Preserved(sql, params)
  {
    BindingPreservesMeaning(sql, params);
  }

  lemma UnsafeSpoils(sql: string, n: nat) returns (params: seq<Param>)
    requires n < USIZE_LIMIT && !Safe(sql, n)
    ensures AllNulFree(params) && |params| == n && !Preserved(sql, params)
  {
    if !LooseFrom(INITIAL, sql, 0, n) {
      var p := Spoils(INITIAL, sql, 0, n);
      params := Same(p, n);
    } else {
      ActualLags(INITIAL, sql, 0, n);
      ExpectedGrowth(INITIAL, sql, 0, n);
      params := if Preserved(sql, Same(SHORT, n)) then Same(LONG, n) else Same(SHORT, n);
    }
  }

  /** The binding of `n` parameters preserves the meaning of a template whatever their values, if and
      only if the placeholders that `n` parameters bind are well placed. */
  lemma SafetyIsExact(sql: string, n: nat)
    requires n < USIZE_LIMIT
    ensures Safe(sql, n) <==>
      forall params: seq<Param> | AllNulFree(params) && |params| == n :: Preserved(sql, params)
  {
    if Safe(sql, n) {
      forall params: seq<Param> | AllNulFree(params) && |params| == n
        ensures Preserved(sql, params)
      {
        SafePreserves(sql, params);
      }
    } else {
      var params := UnsafeSpoils(sql, n);
      assert !Preserved(sql, params);
    }
  }

  // -------------------------------------------------------------------------
  // Fewer parameters
  // -------------------------------------------------------------------------

  /** A placeholder that more parameters bind is pending, or nothing is. */
  predicate Pends(a: State, b: State, sql: string, next: nat, n: nat) {
    a == b
    || (a == INITIAL && b.kind == Question && RightClear(sql, next, n) && (sql != "" ==> !IsDigit(sql[0])))
  }

  lemma FewerBound(m: string, next: nat, n: nat, k: nat)
    requires IsFront(m) && k <= n && Bound(m, Capped(next, k), k)
    ensures Bound(m, next, n) && Capped(Taken(m, next), k) == Taken(m, Capped(next, k))
  {}

  lemma FewerClear(rest: string, next: nat, n: nat, k: nat)
    requires k <= n && RightClear(rest, next, n)
    ensures RightClear(rest, Capped(next, k), k)
  {
    if rest != "" && Bound(rest[..Width(rest)], Capped(next, k), k) {
      FewerBound(rest[..Width(rest)], next, n, k);
    }
  }

  lemma MarkPends(st: State, m: string)
    requires LeftSafe(st) && IsFront(m) && m[0] == '?'
    ensures Final(st, m).kind == Question
  {
    LeftSafeEndsAt(st, '?');
    DigitsAfterMark("?", m[1..]);
  }

  lemma StepPending(a: State, b: State, sql: string, next: nat, n: nat)
    requires Pends(a, b, sql, next, n) && sql != "" && !IsNul(sql[0])
    ensures Step(a, sql[0]).0 == Step(b, sql[0]).0
  {}

  lemma {:induction false} FewerFrom(a: State, b: State, sql: string, next: nat, n: nat, k: nat)
    requires k <= n && SafeFrom(a, sql, next, n) && Pends(a, b, sql, next, n)
    ensures SafeFrom(b, sql, Capped(next, k), k)
    decreases |sql|
  {
    if sql != "" && !IsNul(sql[0]) {
      var m, rest := sql[..Width(sql)], sql[Width(sql)..];
      StepPending(a, b, sql, next, n);
      if Bound(m, Capped(next, k), k) {
        FewerBound(m, next, n, k);
        FewerClear(rest, Taken(m, next), n, k);
        FewerFrom(INITIAL, INITIAL, rest, Taken(m, next), n, k);
      } else if Bound(m, next, n) {
        MarkPends(b, m);
        FewerFrom(INITIAL, Final(b, m), rest, Taken(m, next), n, k);
      } else if sql[0] == '?' {
        assert Final(a, m) == Final(b, m);
        FewerFrom(Final(a, m), Final(b, m), rest, next, n, k);
      } else {
        FewerFrom(Step(a, sql[0]).0, Step(b, sql[0]).0, rest, next, n, k);
      }
    }
  }

  /** A template that is safe for `n` parameters is safe for fewer. */
  lemma FewerAreSafe(sql: string, n: nat, k: nat)
    requires k <= n && Safe(sql, n)
    ensures Safe(sql, k)
  {
    FewerFrom(INITIAL, INITIAL, sql, 0, n, k);
  }

  /** So no parameter list of any length spoils a template if and only if it is safe for as many
      parameters as there can be. */
  lemma SafeForAll(sql: string)
    ensures Safe(sql, USIZE_LIMIT - 1) <==>
      forall params: seq<Param> | AllNulFree(params) && |params| < USIZE_LIMIT :: Preserved(sql, params)
  {
    if Safe(sql, USIZE_LIMIT - 1) {
      forall params: seq<Param> | AllNulFree(params) && |params| < USIZE_LIMIT
        ensures Preserved(sql, params)
      {
        FewerAreSafe(sql, USIZE_LIMIT - 1, |params|);
        SafePreserves(sql, params);
      }
    } else {
      var params := UnsafeSpoils(sql, USIZE_LIMIT - 1);
      assert !Preserved(sql, params);
    }
  }
}
