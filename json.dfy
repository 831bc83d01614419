/** The loosely typed values a parsed JSON request body or query string can hold,
    as the controllers and validators inspect them with `typeof`, `Array.isArray`
    and truthiness tests. */
module Json {
  import opened Text

  /** A JavaScript value as it can appear in a request body. `Undefined` is what a
      missing property reads as. Numbers keep only what the code looks at: whether
      they are zero, which decides their truthiness. */
  datatype Value =
    | Undefined
    | Null
    | Bool(b: bool)
    | Num(n: int)
    | Str(s: string)
    | Arr(items: seq<Value>)
    | Obj

  /** A request body: the object's own properties. */
  type Payload = map<string, Value>

  /** `body[key]`: a missing property reads as `undefined`. */
  function Get(body: Payload, key: string): Value {
    if key in body then body[key] else Undefined
  }

  /** JavaScript truthiness: `undefined`, `null`, `false`, `0` and `""` are falsy. */
  predicate Truthy(v: Value) {
    match v
    case Undefined => false
    case Null => false
    case Bool(b) => b
    case Num(n) => n != 0
    case Str(s) => s != ""
    case Arr(_) => true
    case Obj => true
  }

  /** `String(v)`, the conversion `parseInt` applies to its argument. An array is
      joined with ',' and its `null` and `undefined` entries become "". */
  function JsString(v: Value): string
    decreases v
  {
    match v
    case Undefined => "undefined"
    case Null => "null"
    case Bool(b) => if b then "true" else "false"
    case Num(n) => if n < 0 then "-" + Decimal(-n) else Decimal(n)
    case Str(s) => s
    case Arr(items) =>
      JoinWith(seq(|items|, i requires 0 <= i < |items| =>
                 if items[i] == Null || items[i] == Undefined then "" else JsString(items[i])), ",")
    case Obj => "[object Object]"
  }
}
