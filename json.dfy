/** JSON values as the engine sees them, and JavaScript's truthiness test on them. */
module JsonValue {

  /** A JSON value. Numbers are integers: the model does not cover floating point. */
  datatype Json =
    | Null
    | Bool(b: bool)
    | Num(n: int)
    | Str(s: string)
    | Arr(elems: seq<Json>)
    | Obj(fields: map<string, Json>)

  /** JavaScript's ToBoolean: null, false, 0 and "" are falsy; every array and object, even an empty one, is truthy. */
  predicate Truthy(j: Json)
    ensures Truthy(j) <==> j != Null && j != Bool(false) && j != Num(0) && j != Str("")
  {
    match j
    case Null => false
    case Bool(b) => b
    case Num(n) => n != 0
    case Str(s) => s != ""
    case Arr(_) => true
    case Obj(_) => true
  }

  /** Property access `j[key]`; a missing property (JavaScript's undefined) is read as Null. */
  function Get(j: Json, key: string): Json
  {
    if j.Obj? && key in j.fields then j.fields[key] else Null
  }
}
