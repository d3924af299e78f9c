/** The documents the tool reads and writes (the JSON state file, the YAML configuration
    files), and the parts of Python's object protocol the code relies on. */
module Json {
  import opened Wrappers

  datatype Json =
    | Null
    | Bool(b: bool)
    | Num(n: int)
    | Str(s: string)
    | Arr(items: seq<Json>)
    | Obj(fields: map<string, Json>)

  /** A fresh, empty dict `{}`. */
  const EmptyObj: Json := Obj(map[])

  /** Python truthiness: `None`, `False`, `0`, `''`, `[]` and `{}` are false. */
  predicate Truthy(v: Json) {
    match v
    case Null => false
    case Bool(b) => b
    case Num(n) => n != 0
    case Str(s) => s != ""
    case Arr(xs) => xs != []
    case Obj(m) => m != map[]
  }

  /** Python `a or b`: the first operand when it is truthy, otherwise the second. */
  function Or(a: Json, b: Json): (r: Json)
    ensures Truthy(a) ==> r == a
    ensures !Truthy(a) ==> r == b
  {
    if Truthy(a) then a else b
  }

  /** `dict.get(key, default)`. */
  function GetOr(m: map<string, Json>, key: string, default: Json): (r: Json)
    ensures key in m ==> r == m[key]
    ensures key !in m ==> r == default
  {
    if key in m then m[key] else default
  }

  /** A command-line or environment value: a string, or `None` when not given. */
  function FromOption(o: Option<string>): (r: Json)
    ensures r.Null? || r.Str?
    ensures Truthy(r) <==> o.Some? && o.value != ""
  {
    match o
    case None => Null
    case Some(s) => Str(s)
  }
}
