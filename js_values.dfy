/**
 * The JavaScript values that the preload script inspects: preference snapshots
 * and the payload of configuration-change events. Numbers are integers here.
 */
module JsValues {
  import opened Wrappers

  datatype Value =
    | Undefined
    | Null
    | Bool(b: bool)
    | Number(n: int)
    | Str(s: string)
    | Object(fields: map<string, Value>)

  /** `typeof v === 'boolean'` */
  predicate IsBoolean(v: Value) {
    v.Bool?
  }

  /** JavaScript truthiness (the conversion `&&` applies to its left operand). */
  predicate Truthy(v: Value) {
    match v
    case Undefined => false
    case Null => false
    case Bool(b) => b
    case Number(n) => n != 0
    case Str(s) => s != ""
    case Object(_) => true
  }

  /**
   * The property read `v.key`: None when it throws a TypeError (reading a
   * property of `undefined` or `null`), `undefined` for a key an object lacks.
   * Primitives expose no property the preload script reads.
   */
  function Get(v: Value, key: string): (r: Option<Value>)
    ensures r.None? <==> (v.Undefined? || v.Null?)
    ensures v.Object? && key in v.fields ==> r == Some(v.fields[key])
    ensures r.Some? && r.value != Undefined ==> v.Object? && key in v.fields && v.fields[key] == r.value
  {
    match v
    case Undefined => None
    case Null => None
    case Object(fields) => Some(if key in fields then fields[key] else Undefined)
    case _ => Some(Undefined)
  }
}
