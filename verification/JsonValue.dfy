/** JSON values as both sides hold them in memory. Objects are sorted maps, so they carry no
    order of their own and one value per key. */
module JsonValue {
  import opened Basics

  datatype Json =
    | JNull
    | JBool(b: bool)
    | JInt(n: int)
    | JReal(r: real)
    | JStr(s: string)
    | JArr(items: seq<Json>)
    | JObj(fields: map<string, Json>)

  /** `value.get(key)`: nothing on anything but an object. */
  function Get(v: Json, key: string): Option<Json> {
    if v.JObj? && key in v.fields then Some(v.fields[key]) else None
  }

  /** `value.get(key).and_then(Value::as_str)`. */
  function GetStr(v: Json, key: string): Option<string> {
    match Get(v, key)
    case Some(JStr(s)) => Some(s)
    case _ => None
  }
}
