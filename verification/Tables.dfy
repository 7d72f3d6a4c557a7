/** Query results: rows leave the server as objects without column order and reach the client
    together with the ordered column list. */
module Tables {
  import opened Basics
  import opened JsonValue
  import Hex

  /** A value in a result row. */
  datatype Cell = Null | Integer(n: I64) | Real(r: real) | NonFinite | Text(s: string) | Blob(bytes: seq<Octet>)

  /** A result set: every row has one cell per column. */
  datatype Table = Table(columns: seq<string>, rows: seq<seq<Cell>>) {
    predicate Regular() { forall i :: 0 <= i < |rows| ==> |rows[i]| == |columns| }
    predicate Distinct() { forall i, j :: 0 <= i < j < |columns| ==> columns[i] != columns[j] }
  }

  // -------------------------------------------------------------------------
  // The server side
  // -------------------------------------------------------------------------

  function EncodeCell(c: Cell): Json {
    match c
    case Null => JNull
    case Integer(n) => JInt(n)
    case Real(r) => JReal(r)
    case NonFinite => JNull
    case Text(s) => JStr(s)
    case Blob(bytes) => JStr(Hex.BlobLiteral(bytes))
  }

  /** Inserting the cells of a row under their column names, left to right. */
  function RowObject(columns: seq<string>, row: seq<Cell>): map<string, Json>
    requires |row| == |columns|
  {
    if columns == [] then map[]
    else RowObject(columns[..|columns| - 1], row[..|row| - 1])[columns[|columns| - 1] := EncodeCell(row[|row| - 1])]
  }

  function RowObjects(t: Table): seq<Json>
    requires t.Regular()
  {
    seq(|t.rows|, i requires 0 <= i < |t.rows| => JObj(RowObject(t.columns, t.rows[i])))
  }

  function Names(columns: seq<string>): seq<Json> {
    seq(|columns|, i requires 0 <= i < |columns| => JStr(columns[i]))
  }

  /** `{"columns": [..], "data": [..]}`. */
  function Payload(t: Table): Json
    requires t.Regular()
  {
    JObj(map["columns" := JArr(Names(t.columns)), "data" := JArr(RowObjects(t))])
  }

  /** The row loop of `run_query`. */
  method BuildPayload(t: Table) returns (payload: Json)
    requires t.Regular()
    ensures payload == Payload(t)
    ensures Columns(payload) == t.columns && |Rows(payload)| == |t.rows|
    ensures forall i, j :: 0 <= i < |t.rows| && 0 <= j < |t.columns| ==>
      ReadAs(Rows(payload)[i], t.columns[j], t.rows[i][LastIndex(t.columns, t.columns[j])])
  {
    var data: seq<Json> := [];
    for i := 0 to |t.rows|
      invariant data == RowObjects(t)[..i]
    {
      var row := t.rows[i];
      var fields: map<string, Json> := map[];
      for k := 0 to |t.columns|
        invariant fields == RowObject(t.columns[..k], row[..k])
      {
        assert t.columns[..k + 1][..k] == t.columns[..k] && row[..k + 1][..k] == row[..k];
        fields := fields[t.columns[k] := EncodeCell(row[k])];
      }
      assert t.columns[..|t.columns|] == t.columns && row[..|row|] == row;
      data := data + [JObj(fields)];
    }
    assert RowObjects(t)[..|t.rows|] == RowObjects(t);
    TableIsRead(t);
    payload := JObj(map["columns" := JArr(Names(t.columns)), "data" := JArr(data)]);
  }

  // -------------------------------------------------------------------------
  // The client side
  // -------------------------------------------------------------------------

  function GetArray(payload: Json, key: string): seq<Json> {
    match Get(payload, key)
    case Some(JArr(items)) => items
    case _ => []
  }

  function Strings(items: seq<Json>): seq<string> {
    if items == [] then []
    else (if items[0].JStr? then [items[0].s] else []) + Strings(items[1..])
  }

  function Objects(items: seq<Json>): seq<map<string, Json>> {
    if items == [] then []
    else (if items[0].JObj? then [items[0].fields] else []) + Objects(items[1..])
  }

  function Columns(payload: Json): seq<string> { Strings(GetArray(payload, "columns")) }

  function Rows(payload: Json): seq<map<string, Json>> { Objects(GetArray(payload, "data")) }

  function Lookup(row: map<string, Json>, key: string): Option<Json> {
    if key in row then Some(row[key]) else None
  }

  /** The first column of the first row; `firstKey` gives the first key of an object in key
      order and is consulted only when there is no column list. */
  function Scalar(payload: Json, firstKey: map<string, Json> -> Option<string>): Option<Json> {
    var data := GetArray(payload, "data");
    if data == [] || !data[0].JObj? then None
    else
      var columns := Columns(payload);
      var key := if columns != [] then Some(columns[0]) else firstKey(data[0].fields);
      match key
      case Some(k) => Lookup(data[0].fields, k)
      case None => None
  }

  /** `as_i64`, `as_f64` and `as_str` of a JSON value. */
  function AsI64(v: Json): Option<I64> {
    match v
    case JInt(n) => if I64_MIN <= n <= I64_MAX then Some(n) else None
    case _ => None
  }

  function AsF64(v: Json): Option<real> {
    match v
    case JInt(n) => Some(n as real)
    case JReal(r) => Some(r)
    case _ => None
  }

  function AsStr(v: Json): Option<string> {
    match v
    case JStr(s) => Some(s)
    case _ => None
  }

  function AsBlob(v: Json): Option<seq<Octet>> {
    match AsStr(v)
    case Some(s) => Hex.RustDecode(s)
    case None => None
  }

  /** The readers of a row: `get_i64`, `get_f64`, `get_str`, `is_null` and `blob`. */
  function I64At(row: map<string, Json>, column: string): Option<I64> {
    match Lookup(row, column) case Some(v) => AsI64(v) case None => None
  }

  function F64At(row: map<string, Json>, column: string): Option<real> {
    match Lookup(row, column) case Some(v) => AsF64(v) case None => None
  }

  function StrAt(row: map<string, Json>, column: string): Option<string> {
    match Lookup(row, column) case Some(v) => AsStr(v) case None => None
  }

  predicate NullAt(row: map<string, Json>, column: string) {
    match Lookup(row, column) case Some(v) => v.JNull? case None => true
  }

  function BlobAt(row: map<string, Json>, column: string): Option<seq<Octet>> {
    match Lookup(row, column) case Some(v) => AsBlob(v) case None => None
  }

  // -------------------------------------------------------------------------
  // What the readers make of a cell
  // -------------------------------------------------------------------------

  /** An integer. */
  function Whole(cell: Cell): Option<I64> { if cell.Integer? then Some(cell.n) else None }

  /** A number, an integer without its kind. */
  function Numeric(cell: Cell): Option<real> {
    if cell.Integer? then Some(cell.n as real) else if cell.Real? then Some(cell.r) else None
  }

  /** Bytes; a text that is written like a blob literal is read as one. */
  function Bytes(cell: Cell): Option<seq<Octet>> {
    if cell.Blob? then Some(cell.bytes) else if cell.Text? then Hex.RustDecode(cell.s) else None
  }

  /** The JSON value is read as the cell by every reader: integers, numbers, texts, nulls and bytes
      as themselves, non-finite numbers as null, and nothing as anything else. */
  predicate Means(v: Json, cell: Cell) {
    && AsI64(v) == Whole(cell) && AsF64(v) == Numeric(cell) && AsBlob(v) == Bytes(cell)
    && (v.JNull? <==> cell.Null? || cell.NonFinite?)
    && (AsStr(v).Some? <==> cell.Text? || cell.Blob?) && (cell.Text? ==> AsStr(v) == Some(cell.s))
  }

  /** The same of a column of a row. */
  predicate ReadAs(row: map<string, Json>, column: string, cell: Cell) {
    && column in row
    && I64At(row, column) == Whole(cell) && F64At(row, column) == Numeric(cell) && BlobAt(row, column) == Bytes(cell)
    && (NullAt(row, column) <==> cell.Null? || cell.NonFinite?)
    && (StrAt(row, column).Some? <==> cell.Text? || cell.Blob?)
    && (cell.Text? ==> StrAt(row, column) == Some(cell.s))
  }

  /** The server's encoding of a cell is read as that cell. */
  lemma CellIsRead(cell: Cell)
    ensures Means(EncodeCell(cell), cell)
  {
    match cell
    case Blob(bytes) => BlobIsRead(bytes);
    case Text(s) => TextIsRead(s);
    case _ =>
  }

  lemma BlobIsRead(bytes: seq<Octet>)
    ensures Means(JStr(Hex.BlobLiteral(bytes)), Cell.Blob(bytes))
  {
    Hex.BlobRoundTrip(bytes);
  }

  lemma TextIsRead(s: string)
    ensures Means(JStr(s), Cell.Text(s))
  {}

  /** A column that the row does not have is null to `is_null` and nothing to the other readers. */
  lemma AbsentIsRead(row: map<string, Json>, column: string)
    requires column !in row
    ensures NullAt(row, column) && I64At(row, column) == None && F64At(row, column) == None
    ensures StrAt(row, column) == None && BlobAt(row, column) == None
  {}

  // -------------------------------------------------------------------------
  // What survives
  // -------------------------------------------------------------------------

  /** The last position of a column name. */
  function LastIndex(columns: seq<string>, name: string): (k: nat)
    requires name in columns
    ensures k < |columns| && columns[k] == name
    ensures forall j :: k < j < |columns| ==> columns[j] != name
  {
    if columns[|columns| - 1] == name then |columns| - 1
    else
      assert columns == columns[..|columns| - 1] + [columns[|columns| - 1]];
      LastIndex(columns[..|columns| - 1], name)
  }

  lemma {:induction false} RowObjectCells(columns: seq<string>, row: seq<Cell>)
    requires |row| == |columns|
    ensures forall name :: name in RowObject(columns, row) <==> name in columns
    ensures forall name :: name in columns ==>
      RowObject(columns, row)[name] == EncodeCell(row[LastIndex(columns, name)])
  {
    if columns != [] {
      var n := |columns| - 1;
      RowObjectCells(columns[..n], row[..n]);
      assert columns == columns[..n] + [columns[n]];
    }
  }

  /** A row object has the column names as keys and no others, and each is read as the cell of the
      last column of that name. */
  lemma RowObjectLastWins(columns: seq<string>, row: seq<Cell>)
    requires |row| == |columns|
    ensures forall name :: name in RowObject(columns, row) <==> name in columns
    ensures forall name :: name in columns ==>
      ReadAs(RowObject(columns, row), name, row[LastIndex(columns, name)])
  {
    RowObjectCells(columns, row);
    forall name | name in columns
      ensures ReadAs(RowObject(columns, row), name, row[LastIndex(columns, name)])
    {
      CellIsRead(row[LastIndex(columns, name)]);
    }
  }

  lemma {:induction false} StringsOfNames(columns: seq<string>)
    ensures Strings(Names(columns)) == columns
  {
    if columns != [] {
      StringsOfNames(columns[1..]);
      assert Names(columns)[1..] == Names(columns[1..]);
      assert columns == [columns[0]] + columns[1..];
    }
  }

  lemma {:induction false} ObjectsOfRows(t: Table)
    requires t.Regular()
    ensures |Objects(RowObjects(t))| == |t.rows|
    ensures forall i :: 0 <= i < |t.rows| ==> Objects(RowObjects(t))[i] == RowObject(t.columns, t.rows[i])
    decreases |t.rows|
  {
    if t.rows != [] {
      var rest := Table(t.columns, t.rows[1..]);
      ObjectsOfRows(rest);
      assert RowObjects(t)[1..] == RowObjects(rest);
      forall i | 0 < i < |t.rows|
        ensures Objects(RowObjects(t))[i] == RowObject(t.columns, t.rows[i])
      {
        assert Objects(RowObjects(t))[i] == Objects(RowObjects(rest))[i - 1];
      }
    }
  }

  lemma PayloadParts(t: Table)
    requires t.Regular()
    ensures Columns(Payload(t)) == t.columns
    ensures GetArray(Payload(t), "data") == RowObjects(t)
  {
    StringsOfNames(t.columns);
  }

  /** Whatever the table, the client recovers the columns in `SELECT` order, the number of rows, and
      under every name the cell of its last column. */
  lemma TableIsRead(t: Table)
    requires t.Regular()
    ensures Columns(Payload(t)) == t.columns
    ensures |Rows(Payload(t))| == |t.rows|
    ensures forall i, j :: 0 <= i < |t.rows| && 0 <= j < |t.columns| ==>
      ReadAs(Rows(Payload(t))[i], t.columns[j], t.rows[i][LastIndex(t.columns, t.columns[j])])
  {
    PayloadParts(t);
    ObjectsOfRows(t);
    forall i, j | 0 <= i < |t.rows| && 0 <= j < |t.columns|
      ensures ReadAs(Rows(Payload(t))[i], t.columns[j], t.rows[i][LastIndex(t.columns, t.columns[j])])
    {
      RepeatedNames(t, i, j);
    }
  }

  /** With repeated names the client reads the last column of each name. */
  lemma RepeatedNames(t: Table, i: nat, j: nat)
    requires t.Regular() && i < |t.rows| && j < |t.columns|
    ensures |Rows(Payload(t))| == |t.rows|
    ensures ReadAs(Rows(Payload(t))[i], t.columns[j], t.rows[i][LastIndex(t.columns, t.columns[j])])
  {
    PayloadParts(t);
    ObjectsOfRows(t);
    RowObjectLastWins(t.columns, t.rows[i]);
    assert t.columns[j] in t.columns;
  }

  lemma DistinctIsLast(t: Table, j: nat)
    requires t.Distinct() && j < |t.columns|
    ensures t.columns[j] in t.columns && LastIndex(t.columns, t.columns[j]) == j
  {}

  /** With distinct column names the client reads the table: the columns in `SELECT` order, as many
      rows, and every cell as what it is. */
  lemma TableSurvives(t: Table)
    requires t.Regular() && t.Distinct()
    ensures Columns(Payload(t)) == t.columns
    ensures |Rows(Payload(t))| == |t.rows|
    ensures forall i, j :: 0 <= i < |t.rows| && 0 <= j < |t.columns| ==>
      ReadAs(Rows(Payload(t))[i], t.columns[j], t.rows[i][j])
  {
    TableIsRead(t);
    forall i, j | 0 <= i < |t.rows| && 0 <= j < |t.columns|
      ensures ReadAs(Rows(Payload(t))[i], t.columns[j], t.rows[i][j])
    {
      DistinctIsLast(t, j);
    }
  }

  /** `scalar` reads the first row under the first column name, whatever the alphabetical order
      of the names: the first cell, unless a later column repeats that name. */
  lemma ScalarIsFirstCell(t: Table, firstKey: map<string, Json> -> Option<string>)
    requires t.Regular() && t.rows != [] && t.columns != []
    ensures t.columns[0] in t.columns
    ensures var v := Scalar(Payload(t), firstKey);
      v.Some? && Means(v.value, t.rows[0][LastIndex(t.columns, t.columns[0])])
    ensures LastIndex(t.columns, t.columns[0]) == 0 <==> t.columns[0] !in t.columns[1..]
  {
    PayloadParts(t);
    RowObjectCells(t.columns, t.rows[0]);
    CellIsRead(t.rows[0][LastIndex(t.columns, t.columns[0])]);
    assert forall j :: 0 < j < |t.columns| ==> t.columns[j] == t.columns[1..][j - 1];
  }

  /** A blob cell comes back as the bytes that were stored. */
  lemma BlobSurvives(t: Table, i: nat, j: nat)
    requires t.Regular() && t.Distinct()
    requires i < |t.rows| && j < |t.columns| && t.rows[i][j].Blob?
    ensures |Rows(Payload(t))| == |t.rows|
    ensures BlobAt(Rows(Payload(t))[i], t.columns[j]) == Some(t.rows[i][j].bytes)
  {
    TableSurvives(t);
  }

  /** Without rows or without columns `scalar` is nothing, and consults the key order only for a row
      that has none. */
  lemma NoScalar(t: Table, firstKey: map<string, Json> -> Option<string>)
    requires t.Regular() && (t.rows == [] || t.columns == []) && (t.rows != [] ==> firstKey(map[]) == None)
    ensures Scalar(Payload(t), firstKey) == None
  {
    PayloadParts(t);
  }

  /** Of a payload that has rows but no column list, `scalar` is the value of the first key of the first
      row. */
  lemma ScalarWithoutColumns(rows: seq<map<string, Json>>, firstKey: map<string, Json> -> Option<string>)
    requires rows != [] && (firstKey(rows[0]) == None <==> rows[0] == map[])
    requires rows[0] != map[] ==> firstKey(rows[0]).value in rows[0]
    ensures var payload := JObj(map["data" := JArr(seq(|rows|, i requires 0 <= i < |rows| => JObj(rows[i])))]);
      Scalar(payload, firstKey) == if rows[0] == map[] then None else Some(rows[0][firstKey(rows[0]).value])
  {}
}
