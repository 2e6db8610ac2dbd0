/** The JavaScript values that the strategy and its lookup helper read, as far as they can
    tell them apart: `typeof`, `null` / `undefined`, and truthiness. */
module JsValue {

  /** A JavaScript value. Arrays are objects (`typeof [] === 'object'`), so they are `Obj`
      values keyed by their indices. Functions are opaque and only identified by `id`. */
  datatype Value =
    | Undefined
    | Null
    | Bool(b: bool)
    | Num(n: int)
    | Str(s: string)
    | Func(id: nat)
    | Obj(props: map<string, Value>)

  /** `v === null || v === undefined` */
  predicate IsNullish(v: Value) {
    v.Undefined? || v.Null?
  }

  /** `typeof v === 'object'` for a value that is not `null`. */
  predicate IsObject(v: Value) {
    v.Obj?
  }

  /** A value that is neither nullish nor an object: a string, number, boolean or function. */
  predicate IsScalar(v: Value) {
    !IsNullish(v) && !IsObject(v)
  }

  /** The value JavaScript's `!!v` gives. */
  predicate Truthy(v: Value)
    ensures IsNullish(v) ==> !Truthy(v)
    ensures IsObject(v) || v.Func? ==> Truthy(v)
  {
    match v
    case Undefined => false
    case Null => false
    case Bool(b) => b
    case Num(n) => n != 0
    case Str(s) => s != ""
    case Func(_) => true
    case Obj(_) => true
  }

  /** `v[key]` on an object; a key the object does not hold reads as `undefined`. */
  function Get(v: Value, key: string): (r: Value)
    ensures !IsObject(v) ==> r == Undefined
    ensures IsObject(v) && key !in v.props ==> r == Undefined
    ensures IsObject(v) && key in v.props ==> r == v.props[key]
  {
    if v.Obj? && key in v.props then v.props[key] else Undefined
  }

  /** JavaScript's `a || b`: the first operand when it is truthy, else the second. */
  function Or(a: Value, b: Value): (r: Value)
    ensures Truthy(r) <==> Truthy(a) || Truthy(b)
    ensures Truthy(a) ==> r == a
    ensures !Truthy(a) ==> r == b
  {
    if Truthy(a) then a else b
  }
}
