/** Parameter binding in the Python client: values are told apart by their types, the pass consumes
    an iterator, and `int` refuses too many digits. Where it does not, the text sent is the Rust
    client's. */
module SqlPython {
  import opened Basics
  import opened SqlBinder
  import Decimal
  import Hex

  datatype Float = NotANumber | Infinity(positive: bool) | Finitely(r: Finite)

  /** A Python value, told apart in the order of the client's checks; integers have any size. */
  datatype PyValue =
    | PyNone
    | PyBool(b: bool)
    | PyFloat(f: Float)
    | PyInt(n: int)
    | PyBytes(bytes: seq<Octet>)
    | PyStr(s: string)

  /** `str.replace`: the pieces between the quotes, joined by two. */
  function DoubleQuotes(s: string): string { Join(Split(s, '\''), "''") }

  /** `_serialize_sql_value`. */
  function Serialize(v: PyValue): string {
    match v
    case PyNone => "NULL"
    case PyBool(b) => if b then "1" else "0"
    case PyFloat(NotANumber) => "NULL"
    case PyFloat(Infinity(positive)) => if positive then "9e999" else "-9e999"
    case PyFloat(Finitely(r)) => r.Text()
    case PyInt(n) => Decimal.PrintInt(n)
    case PyBytes(bytes) => "X'" + Hex.Encode(bytes) + "'"
    case PyStr(s) => "'" + DoubleQuotes(s) + "'"
  }

  /** The Python value that stands for a parameter of the Rust client. */
  function FromParam(p: Param): PyValue {
    match p
    case Null => PyNone
    case Bool(b) => PyBool(b)
    case Int(n) => PyInt(n)
    case Real(r) => PyFloat(Finitely(r))
    case NaN => PyFloat(NotANumber)
    case Infinite(positive) => PyFloat(Infinity(positive))
    case Text(s) => PyStr(s)
    case Blob(bytes) => PyBytes(bytes)
  }

  function FromParams(params: seq<Param>): (values: seq<PyValue>)
    ensures |values| == |params|
  {
    seq(|params|, i requires 0 <= i < |params| => FromParam(params[i]))
  }

  lemma {:induction false} DoubleQuotesIsEscape(s: string)
    ensures DoubleQuotes(s) == Escape(s)
  {
    if s != "" {
      DoubleQuotesIsEscape(s[1..]);
      var rest := Split(s[1..], '\'');
      if s[0] == '\'' {
        assert ([""] + rest)[1..] == rest;
      } else {
        PieceGrows(s[0], rest);
      }
    }
  }

  lemma PieceGrows(c: char, pieces: seq<string>)
    requires pieces != []
    ensures Join([[c] + pieces[0]] + pieces[1..], "''") == [c] + Join(pieces, "''")
  {
    var grown := [[c] + pieces[0]] + pieces[1..];
    assert grown[1..] == pieces[1..];
    if |pieces| > 1 {
      Regroup([c], pieces[0] + "''", Join(pieces[1..], "''"));
      Regroup([c], pieces[0], "''");
    }
  }

  /** Both clients write the same literals. */
  lemma LiteralsAgree(p: Param)
    ensures Serialize(FromParam(p)) == Literal(p)
  {
    if p.Text? {
      DoubleQuotesIsEscape(p.s);
    }
  }

  // -------------------------------------------------------------------------
  // The pass
  // -------------------------------------------------------------------------

  /** `int(digits)` raises an error on more digits than the interpreter's limit, if it has one. */
  predicate Converts(digits: string, limit: nat) { limit == 0 || |digits| <= limit }

  /** The closure given to `re.sub`, with `iter` the values that the iterator has left. */
  function Replaced(m: string, values: seq<PyValue>, iter: seq<PyValue>, limit: nat): Option<string>
    requires IsFront(m)
  {
    if m[0] != '?' then Some(m)
    else if |m| > 1 then
      if !Converts(m[1..], limit) then None
      else
        var index := Decimal.Value(m[1..]) - 1;
        Some(if 0 <= index < |values| then Serialize(values[index]) else m)
    else if iter != [] then Some(Serialize(iter[0]))
    else Some("?")
  }

  function Consume(m: string, iter: seq<PyValue>): seq<PyValue> {
    if m == "?" && iter != [] then iter[1..] else iter
  }

  function Prepended(front: Option<string>, back: Option<string>): Option<string> {
    if front.Some? && back.Some? then Some(front.value + back.value) else None
  }

  /** The replacement pass, or nothing if it raises an error. */
  function PyBind(sql: string, values: seq<PyValue>, iter: seq<PyValue>, limit: nat): Option<string>
    decreases |sql|
  {
    if sql == "" then Some("")
    else
      var m := sql[..Width(sql)];
      Prepended(Replaced(m, values, iter, limit), PyBind(sql[Width(sql)..], values, Consume(m, iter), limit))
  }

  /** No `?N` in the template has too many digits. */
  predicate Countable(sql: string, limit: nat)
    decreases |sql|
  {
    sql == "" ||
    (var m := sql[..Width(sql)];
     (m[0] == '?' && |m| > 1 ==> Converts(m[1..], limit)) && Countable(sql[Width(sql)..], limit))
  }

  lemma IteratorsAgree(m: string, params: seq<Param>, next: nat)
    requires next <= |params|
    ensures Consume(m, FromParams(params)[next..]) == FromParams(params)[Advance(m, params, next)..]
  {
    if next < |params| {
      assert FromParams(params)[next..][1..] == FromParams(params)[next + 1..];
    }
  }

  /** The index of a numbered placeholder is the same in both languages. */
  lemma IndexAgrees(m: string, next: nat, n: nat)
    requires IsFront(m) && m[0] == '?' && |m| > 1 && n < USIZE_LIMIT
    ensures var index := Decimal.Value(m[1..]) - 1;
      RustPick(m, next, n) == if 0 <= index < n then Some(index as nat) else None
  {}

  lemma NumberedAgree(m: string, params: seq<Param>, next: nat, limit: nat)
    requires IsFront(m) && m[0] == '?' && |m| > 1 && next <= |params| < USIZE_LIMIT && Converts(m[1..], limit)
    ensures Replaced(m, FromParams(params), FromParams(params)[next..], limit) == Some(RustReplaced(m, params, next))
  {
    IndexAgrees(m, next, |params|);
    match RustPick(m, next, |params|)
    case Some(i) => LiteralsAgree(params[i]);
    case None =>
  }

  lemma ReplacementsAgree(m: string, params: seq<Param>, next: nat, limit: nat)
    requires IsFront(m) && next <= |params| < USIZE_LIMIT
    ensures Replaced(m, FromParams(params), FromParams(params)[next..], limit)
      == if m[0] == '?' && |m| > 1 && !Converts(m[1..], limit) then None else Some(RustReplaced(m, params, next))
  {
    if m[0] == '?' && |m| > 1 {
      if Converts(m[1..], limit) {
        NumberedAgree(m, params, next, limit);
      }
    } else if m[0] == '?' && next < |params| {
      LiteralsAgree(params[next]);
    } else if m[0] == '?' {
      assert m == "?";
    }
  }

  /** Both clients send the same text, leading zeros, `?0` and huge indices included, unless some `?N`
      has more digits than `int` takes; then the Python client raises an error. */
  lemma {:induction false} BindersAgree(sql: string, params: seq<Param>, next: nat, limit: nat)
    requires next <= |params| < USIZE_LIMIT
    ensures PyBind(sql, FromParams(params), FromParams(params)[next..], limit)
      == if Countable(sql, limit) then Some(RustBind(sql, params, next)) else None
    decreases |sql|
  {
    if sql != "" {
      var m := sql[..Width(sql)];
      ReplacementsAgree(m, params, next, limit);
      IteratorsAgree(m, params, next);
      BindersAgree(sql[Width(sql)..], params, Advance(m, params, next), limit);
    }
  }

  lemma PyFront(sql: string, values: seq<PyValue>, iter: seq<PyValue>, limit: nat)
    requires sql != ""
    ensures var m := sql[..Width(sql)];
      PyBind(sql, values, iter, limit)
      == Prepended(Replaced(m, values, iter, limit), PyBind(sql[Width(sql)..], values, Consume(m, iter), limit))
  {}

  /** `re.sub` with the shared iterator. */
  method Prepare(sql: string, values: seq<PyValue>, limit: nat) returns (out: Option<string>)
    ensures out == PyBind(sql, values, values, limit)
    ensures forall params: seq<Param> :: |params| < USIZE_LIMIT && values == FromParams(params) ==>
      out == if Countable(sql, limit) then Some(RustBind(sql, params, 0)) else None
  {
    ghost var goal := PyBind(sql, values, values, limit);
    var text, iter, rest := "", values, sql;
    PrependNothing(goal);
    while rest != ""
      invariant goal == Prepended(Some(text), PyBind(rest, values, iter, limit))
      decreases |rest|
    {
      var m := rest[..Width(rest)];
      PyFront(rest, values, iter, limit);
      rest := rest[Width(rest)..];
      var piece := Replaced(m, values, iter, limit);
      if piece.None? {
        AllAgree(sql, values, limit);
        return None;
      }
      iter := Consume(m, iter);
      PrependTwice(text, piece.value, PyBind(rest, values, iter, limit));
      text := text + piece.value;
    }
    assert text + "" == text;
    out := Some(text);
    AllAgree(sql, values, limit);
  }

  lemma PrependNothing(c: Option<string>)
    ensures Prepended(Some(""), c) == c
  {
    if c.Some? {
      assert "" + c.value == c.value;
    }
  }

  lemma PrependTwice(a: string, b: string, c: Option<string>)
    ensures Prepended(Some(a), Prepended(Some(b), c)) == Prepended(Some(a + b), c)
  {
    if c.Some? {
      Regroup(a, b, c.value);
    }
  }

  lemma AllAgree(sql: string, values: seq<PyValue>, limit: nat)
    ensures forall params: seq<Param> :: |params| < USIZE_LIMIT && values == FromParams(params) ==>
      PyBind(sql, values, values, limit) == if Countable(sql, limit) then Some(RustBind(sql, params, 0)) else None
  {
    forall params: seq<Param> | |params| < USIZE_LIMIT && values == FromParams(params)
      ensures PyBind(sql, values, values, limit) == if Countable(sql, limit) then Some(RustBind(sql, params, 0)) else None
    {
      BindersAgree(sql, params, 0, limit);
      assert FromParams(params)[0..] == values;
    }
  }
}
