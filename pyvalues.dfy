/** The values that the entities' `to_dict` produces and `from_dict` reads: a
    dictionary with string keys. A timestamp is kept as `Time(t)`, standing for the
    ISO 8601 text `datetime.isoformat()` writes and `datetime.fromisoformat` reads back. */
module PyValues {
  import opened Wrappers

  datatype Value =
    | Str(s: string)
    | Int(i: int)
    | Real(r: real)
    | Bool(b: bool)
    | NoneValue
    | Time(t: int)
    | StrMap(m: map<string, string>)

  type Dict = map<string, Value>

  /** Python truthiness of a value (`if value:`). */
  predicate Truthy(v: Value) {
    match v
    case Str(s) => s != ""
    case Int(i) => i != 0
    case Real(r) => r != 0.0
    case Bool(b) => b
    case NoneValue => false
    case Time(_) => true
    case StrMap(m) => m != map[]
  }

  /** `Str(s)` for `Some(s)` and `NoneValue` for `None`. */
  function OptStr(o: Option<string>): Value {
    if o.Some? then Str(o.value) else NoneValue
  }

  /** `data[key]` is present and holds text. */
  predicate StrAt(d: Dict, key: string) {
    key in d && d[key].Str?
  }

  /** `data[key]` is present and holds an ISO 8601 timestamp. */
  predicate TimeAt(d: Dict, key: string) {
    key in d && d[key].Time?
  }

  /** `data.get(key, default)` is a boolean. */
  predicate BoolOrAbsent(d: Dict, key: string) {
    key !in d || d[key].Bool?
  }

  /** `data.get(key, default)` for a boolean key. */
  function GetBool(d: Dict, key: string, default: bool): bool
    requires BoolOrAbsent(d, key)
  {
    if key in d then d[key].b else default
  }

  /** `data.get(key)` is absent, `None` or text. */
  predicate OptStrAt(d: Dict, key: string) {
    key !in d || d[key].NoneValue? || d[key].Str?
  }

  /** `data.get(key)` for an optional text key. */
  function GetOptStr(d: Dict, key: string): Option<string>
    requires OptStrAt(d, key)
  {
    if key in d && d[key].Str? then Some(d[key].s) else None
  }
}
