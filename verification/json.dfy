/** Parsed JSON and YAML values as Python holds them after `json.loads` or
    `yaml.safe_load`: `None`, booleans, integers, strings, lists and dicts. */
module Json {
  import opened Wrappers
  import Assoc
  import Decimal

  datatype Json =
    | JNull
    | JBool(b: bool)
    | JNum(n: int)
    | JStr(s: string)
    | JArr(items: seq<Json>)
    | JObj(fields: Assoc.Record<Json>)

  /** Python truthiness: `None`, `False`, `0` and empty strings, lists and dicts are
      false. */
  predicate Truthy(v: Json) {
    match v
    case JNull => false
    case JBool(b) => b
    case JNum(n) => n != 0
    case JStr(s) => s != ""
    case JArr(items) => items != []
    case JObj(fields) => fields != []
  }

  /** `d.get(key, default)`. */
  function GetOr(d: Assoc.Record<Json>, key: string, default: Json): (v: Json)
    ensures Assoc.HasKey(d, key) ==> Assoc.Get(d, key) == Some(v)
    ensures !Assoc.HasKey(d, key) ==> v == default
  {
    Assoc.Get(d, key).GetOr(default)
  }

  /** Python's `str(v)`. Strings are themselves; `None`, `True`, `False` and integers
      have fixed spellings. Lists and dicts are printed by their `repr`, which is
      not modelled and comes in as `containerRepr`. */
  function PyStr(v: Json, containerRepr: Json -> string): (r: string)
    ensures v.JStr? ==> r == v.s
    ensures v.JNull? || v.JBool? || v.JNum? ==> |r| > 0
  {
    match v
    case JNull => "None"
    case JBool(b) => if b then "True" else "False"
    case JNum(n) => Decimal.IntString(n)
    case JStr(s) => s
    case JArr(_) => containerRepr(v)
    case JObj(_) => containerRepr(v)
  }
}
