/**
  The JavaScript values that flow through the service: request bodies parsed as
  JSON, stored job objects, query parameters and the opaque response of the
  trading API. Only the operations the service applies to them are modelled:
  truthiness (`if (!x)`, `a || b`), property reads that may yield `undefined`,
  destructuring defaults, `Array.isArray` and strict equality.
 */
module JsValues {

  datatype Option<+T> = None | Some(value: T)

  /** A JavaScript value. Numbers are reals: NaN and the infinities are not modelled. */
  datatype Value =
    | Undefined
    | Null
    | Bool(b: bool)
    | Num(n: real)
    | Str(s: string)
    | Arr(items: seq<Value>)
    | Obj(props: map<string, Value>)

  /** A plain JavaScript object, seen as its own enumerable properties. */
  type Object = map<string, Value>

  /** The falsy values of JavaScript's ToBoolean, as far as `Value` represents them. */
  const Falsy: set<Value> := {Undefined, Null, Bool(false), Num(0.0), Str("")}

  /** JavaScript truthiness: `undefined`, `null`, `false`, `0` and `""` are falsy,
      every array and object (even an empty one) is truthy. */
  predicate Truthy(v: Value)
    ensures Truthy(v) <==> v !in Falsy
  {
    match v
    case Undefined => false
    case Null => false
    case Bool(b) => b
    case Num(n) => n != 0.0
    case Str(s) => s != ""
    case Arr(_) => true
    case Obj(_) => true
  }

  /** `a || b`: the first operand when it is truthy, otherwise the second. */
  function Or(a: Value, b: Value): (r: Value)
    ensures Truthy(r) <==> Truthy(a) || Truthy(b)
    ensures Truthy(a) ==> r == a
    ensures !Truthy(a) ==> r == b
  {
    if Truthy(a) then a else b
  }

  /** `o.k`: reading a property that is absent yields `undefined`. */
  function Get(o: Object, k: string): (r: Value)
    // `undefined` exactly when the property is absent or holds `undefined`
    ensures r == Undefined <==> (k in o ==> o[k] == Undefined)
    ensures r != Undefined ==> k in o && o[k] == r
  {
    if k in o then o[k] else Undefined
  }

  /** A destructuring default `{ k = d } = o`: it applies only when the value is
      `undefined`, so an explicit `null` or `0` is kept. */
  function Defaulted(v: Value, d: Value): (r: Value)
    ensures v != Undefined ==> r == v
    ensures v == Undefined ==> r == d
  {
    if v == Undefined then d else v
  }

  /** `Array.isArray(v) ? v : [v]`. */
  function AsList(v: Value): (r: Value)
    ensures r.Arr?
    ensures v.Arr? ==> r == v
    ensures !v.Arr? ==> r.items == [v]
  {
    if v.Arr? then v else Arr([v])
  }

  /** `a === b` where `b` was parsed from a different request than `a`: primitives
      compare by value, while an array or object parameter is a fresh reference and
      so never strictly equal to anything already stored. */
  predicate StrictEquals(a: Value, b: Value)
    ensures StrictEquals(a, b) ==> a == b
    ensures b.Arr? || b.Obj? ==> !StrictEquals(a, b)
    ensures !b.Arr? && !b.Obj? ==> (StrictEquals(a, b) <==> a == b)
  {
    match b
    case Arr(_) => false
    case Obj(_) => false
    case _ => a == b
  }
}
