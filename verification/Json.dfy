/** JSON values with string keys, as the repository's records hold them after `json.loads`. */
module Json {
  import opened Wrappers

  datatype Json =
    | Null
    | Bool(b: bool)
    | Int(n: int)
    | Float(r: real)
    | Str(s: string)
    | Arr(items: seq<Json>)
    | Obj(fields: map<string, Json>)

  /** A JSON object that is a record of its own: one audit event, one campaign record. */
  type Record = map<string, Json>

  /** `record.get(key)`: a missing key reads as null. */
  function Get(record: Record, key: string): Json {
    if key in record then record[key] else Null
  }

  /** Python's `value == n` for an integer `n`: `True` equals 1 and `1.0` equals 1. */
  predicate EqualsInt(value: Json, n: int) {
    match value
    case Int(m) => m == n
    case Float(r) => r == n as real
    case Bool(b) => n == if b then 1 else 0
    case _ => false
  }

  /** The values equal to an integer: that integer, that float, and the two truth values for 1 and 0. */
  lemma EqualsIntIff(value: Json, n: int)
    ensures EqualsInt(value, n) <==>
            || value == Int(n) || value == Float(n as real)
            || (n == 1 && value == Bool(true)) || (n == 0 && value == Bool(false))
  {
  }

  /** Python's truth value of a JSON value. */
  predicate Truthy(value: Json) {
    match value
    case Null => false
    case Bool(b) => b
    case Int(n) => n != 0
    case Float(r) => r != 0.0
    case Str(s) => s != ""
    case Arr(items) => items != []
    case Obj(fields) => fields != map[]
  }

  /** The values that Python takes for false. */
  lemma TruthyIff(value: Json)
    ensures !Truthy(value) <==>
            || value == Null || value == Bool(false) || value == Int(0) || value == Float(0.0)
            || value == Str("") || value == Arr([]) || value == Obj(map[])
  {
  }

  /** An optional string as the JSON value the writers store for it. */
  function OptionalString(value: Option<string>): Json {
    match value
    case None => Null
    case Some(s) => Str(s)
  }
}
