/** The values a parsed JSON or YAML workflow file, a plugin configuration and
    a workflow context are made of, with Python's truthiness and `dict.get`. */
module Values {

  datatype Value =
    | Null
    | Bool(b: bool)
    | Int(i: int)
    | Str(s: string)
    | List(items: seq<Value>)
    | Dict(fields: map<string, Value>)

  /** `bool(v)` in Python. */
  predicate Truthy(v: Value) {
    match v
    case Null => false
    case Bool(b) => b
    case Int(i) => i != 0
    case Str(s) => s != ""
    case List(items) => items != []
    case Dict(fields) => fields != map[]
  }

  /** `str(v)` for a falsy value, as an f-string prints it. */
  function FalsyText(v: Value): string
    requires !Truthy(v)
  {
    match v
    case Null => "None"
    case Bool(_) => "False"
    case Int(_) => "0"
    case Str(_) => ""
    case List(_) => "[]"
    case Dict(_) => "{}"
  }

  /** Lists and dicts cannot be dictionary keys (they are unhashable). */
  predicate Hashable(v: Value) {
    !v.List? && !v.Dict?
  }

  /** `d.get(key, default)` on a dict. */
  function Get(d: map<string, Value>, key: string, default: Value): (r: Value)
    ensures key in d ==> r == d[key]
    ensures key !in d ==> r == default
  {
    if key in d then d[key] else default
  }

  const EmptyDict: Value := Dict(map[])
}
