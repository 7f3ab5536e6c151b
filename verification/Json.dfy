/** JSON values. A key that is absent reads as None; numbers are integers. */
module Json {
  import opened Options

  datatype Json = Null | Bool(value: bool) | Number(number: int) | Text(text: string) | List(items: seq<Json>) | Object(fields: map<string, Json>)

  function Get(v: Json, key: string): (r: Option<Json>)
    ensures v.Object? && key in v.fields ==> r == Some(v.fields[key])
    ensures !v.Object? || key !in v.fields ==> r.None?
  {
    if v.Object? && key in v.fields then Some(v.fields[key]) else None
  }

  /** The value takes the other branch of a logical or. */
  predicate Falsy(v: Option<Json>) {
    match v
    case None => true
    case Some(Null) => true
    case Some(Bool(b)) => !b
    case Some(Number(n)) => n == 0
    case Some(Text(s)) => s == ""
    case Some(_) => false
  }

  function TextMap(m: map<string, string>): (r: map<string, Json>)
    ensures r.Keys == m.Keys && forall k :: k in m ==> r[k] == Text(m[k])
  {
    map k | k in m :: Text(m[k])
  }

  /** An object with those of these fields that there are. */
  function Record(keys: set<string>, field: string -> Option<Json>): (v: Json)
    ensures v.Object? && v.fields.Keys <= keys
    ensures forall k :: Get(v, k) == if k in keys then field(k) else None
  {
    Object(map k | k in keys && field(k).Some? :: field(k).value)
  }
}
