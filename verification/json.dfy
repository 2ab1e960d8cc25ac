/**
 The JavaScript values a parsed JSON request body can hold, together with
 `undefined`, which is what reading a missing property yields. Only the
 behaviour the chat route observes is modelled: property reads, truthiness,
 and which reads throw.
 */
module Json {

  datatype Value =
    | Undefined
    | Null
    | Bool(b: bool)
    | Num(n: int)
    | Str(s: string)
    | Arr(items: seq<Value>)
    | Obj(fields: map<string, Value>)

  /** Reading a property of `null` or `undefined` throws a TypeError. */
  predicate ReadThrows(v: Value) {
    v.Undefined? || v.Null?
  }

  /**
   `v.key` for a value whose read does not throw. Only own data properties
   of objects are modelled; neither `messages` nor `content` is a property
   any built-in prototype supplies, so primitives and arrays yield
   `undefined` for them.
   */
  function Get(v: Value, key: string): (r: Value)
    requires !ReadThrows(v)
  {
    match v
    case Obj(fields) => if key in fields then fields[key] else Undefined
    case _ => Undefined
  }

  /** JavaScript truthiness: `!v` holds exactly for the falsy values. */
  predicate Truthy(v: Value) {
    match v
    case Undefined => false
    case Null => false
    case Bool(b) => b
    case Num(n) => n != 0
    case Str(s) => s != []
    case Arr(_) => true
    case Obj(_) => true
  }
}
