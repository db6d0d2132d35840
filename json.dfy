/**
 * Decoded JSON values, as Python's `json` module hands them to the scrapers,
 * together with the two Python idioms the scrapers apply to them:
 * `dict.get(key)` and the short-circuit `or` driven by truthiness.
 */
module Json {

  /** A decoded JSON value. Numbers are integers: the scrapers only ever
      read status codes, timestamps and timeouts from them. */
  datatype JsonValue =
    | Null
    | Bool(b: bool)
    | Num(n: int)
    | Str(s: string)
    | Arr(items: seq<JsonValue>)
    | Obj(fields: map<string, JsonValue>)

  /** Python truthiness: None, False, 0, "", [] and {} are falsy. */
  predicate Truthy(v: JsonValue) {
    match v
    case Null => false
    case Bool(b) => b
    case Num(n) => n != 0
    case Str(s) => s != ""
    case Arr(items) => items != []
    case Obj(fields) => fields != map[]
  }

  /** `d.get(key)` on a dict: None when the key is absent. */
  function Get(d: JsonValue, key: string): (r: JsonValue)
    requires d.Obj?
    ensures key !in d.fields ==> r == Null
    ensures key in d.fields ==> r == d.fields[key]
  {
    if key in d.fields then d.fields[key] else Null
  }

  /** Python's `a or b`: `a` when it is truthy, otherwise `b` (even a falsy `b`). */
  function Or(a: JsonValue, b: JsonValue): (r: JsonValue)
    ensures Truthy(r) <==> Truthy(a) || Truthy(b)
    ensures Truthy(a) ==> r == a
    ensures !Truthy(a) ==> r == b
  {
    if Truthy(a) then a else b
  }
}
