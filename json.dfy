/**
 * The decoded JSON bodies the mapping provider answers with, and the
 * Python truthiness tests the page applies to them.
 */
module Json {

  datatype Json =
    | Null
    | Bool(b: bool)
    | Num(n: real)
    | Str(s: string)
    | Arr(elems: seq<Json>)
    | Obj(fields: map<string, Json>)

  /** One HTTP answer: its status code and its decoded body. */
  datatype Response = Response(status: int, body: Json)

  /** Python's truth value of a decoded JSON value: empty containers,
      the empty string, zero, false and null are false. */
  predicate Truthy(j: Json) {
    match j
    case Null => false
    case Bool(b) => b
    case Num(n) => n != 0.0
    case Str(s) => s != []
    case Arr(elems) => elems != []
    case Obj(fields) => fields != map[]
  }

  /** `obj.get(key, default)` on a JSON object. */
  function GetOr(fields: map<string, Json>, key: string, default: Json): (v: Json)
    ensures key in fields ==> v == fields[key]
    ensures key !in fields ==> v == default
  {
    if key in fields then fields[key] else default
  }
}
