/**
 * JSON values as request bodies carry them, with the truthiness rules of
 * the two languages that branch on them. Numbers are integers here.
 */
module Json {
  import opened Wrappers

  datatype Json =
    | Null
    | Bool(b: bool)
    | Number(n: int)
    | Str(s: string)
    | Array(elems: seq<Json>)
    | Object(fields: map<string, Json>)

  /** JavaScript truthiness of a value that may be `undefined` (absent). */
  predicate JsTruthy(v: Json) {
    match v
    case Null => false
    case Bool(b) => b
    case Number(n) => n != 0
    case Str(s) => s != ""
    case Array(_) => true
    case Object(_) => true
  }

  /** Python truthiness: empty containers are false as well. */
  predicate PyTruthy(v: Json) {
    match v
    case Null => false
    case Bool(b) => b
    case Number(n) => n != 0
    case Str(s) => s != ""
    case Array(e) => |e| > 0
    case Object(f) => |f| > 0
  }

  /**
   * A property read on a request body, `None` standing for `undefined`:
   * only an object has named fields.
   */
  function Field(body: Json, name: string): (r: Option<Json>)
    ensures r.Some? <==> body.Object? && name in body.fields
    ensures r.Some? ==> r.value == body.fields[name]
  {
    if body.Object? && name in body.fields then Some(body.fields[name]) else None
  }
}
