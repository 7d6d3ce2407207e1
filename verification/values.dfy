/**
 The JavaScript values that reach the server's output helper, and the
 truthiness test (`!value`) it applies before serialising anything.
 */
module Values {

  datatype Option<+T> = None | Some(value: T)

  /** A JavaScript value as it arrives from the compute network's result.
      Numbers are kept as exact reals, so `-0` and `0` coincide, which is
      what JavaScript's truthiness test sees as well. */
  datatype Value =
    | Undefined
    | Null
    | Bool(b: bool)
    | Number(x: real)
    | NaN
    | Str(s: string)
    | Array(items: seq<Value>)
    | Object(fields: seq<(string, Value)>)

  /** JavaScript's `!v`: the six falsy values. Every array and object,
      even an empty one, is truthy. */
  function Falsy(v: Value): (r: bool)
    ensures r <==> (v == Undefined || v == Null || v == Bool(false) || v == Number(0.0)
                    || v == NaN || v == Str([]))
  {
    match v
    case Undefined => true
    case Null => true
    case Bool(b) => !b
    case Number(x) => x == 0.0
    case NaN => true
    case Str(s) => s == []
    case Array(_) => false
    case Object(_) => false
  }

  predicate Truthy(v: Value) {
    !Falsy(v)
  }
}
