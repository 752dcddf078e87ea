/** Decoded JSON values and records, as the comparer in task_1/parser.py sees them. */
module Values {

  /** A value of a decoded JSON document: the `None`, `int`, `str`, `list` and `dict`
      values that records hold. */
  datatype Value =
    | Null
    | Int(i: int)
    | Str(s: string)
    | List(items: seq<Value>)
    | Object(fields: map<string, Value>)

  /** A room or a student: a dictionary from field names to values. */
  type Record = map<string, Value>

  /** Python's `dict.get(key)`: the value stored under `key`, or `None` when the key is absent. */
  function Get(r: Record, key: string): (v: Value)
    ensures key in r ==> v == r[key]
    ensures key !in r ==> v == Null
  {
    if key in r then r[key] else Null
  }
}
