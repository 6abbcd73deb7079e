/** JavaScript values as the action layer sees them: payloads, thrown errors,
    the dynamically typed arguments of the action factories, and plain
    objects with their own property names in insertion order. */
module Js {
  import opened Wrappers
  import opened Sequences

  /** A first-order JavaScript value: what an action carries as a payload and
      what a mapping function may throw. Objects and arrays that travel as
      payloads are opaque references; numbers are integers. */
  datatype Value = Undefined | Null | Bool(b: bool) | Num(n: int) | Str(s: string) | Ref(id: nat)

  /** How one call of a mapping function ends: it returns a value or throws one. */
  datatype Completion = Normal(value: Value) | Throw(error: Value)

  /** A mapping function, taken as a plain total function of its argument. */
  type MapFn = Value -> Completion

  /** `Rx.helpers.identity`, the mapping an action gets when none is given. */
  const Identity: MapFn := x => Normal(x)

  /** JavaScript's ToBoolean on first-order values. */
  predicate Truthy(v: Value): (b: bool)
    ensures !b <==> v == Undefined || v == Null || v == Bool(false) || v == Num(0) || v == Str("")
  {
    match v
    case Undefined => false
    case Null => false
    case Bool(b) => b
    case Num(n) => n != 0
    case Str(s) => s != ""
    case Ref(_) => true
  }

  /** Any JavaScript value an action factory may be handed: a primitive, a
      function, a plain object (its properties by name) or an array. */
  datatype JsVal = Prim(v: Value) | Func(f: MapFn) | Obj(props: map<string, JsVal>) | Arr(items: seq<JsVal>)

  /** What `typeof` can answer for these values: one constructor per string
      ("undefined", "object", "boolean", "number", "string", "function"). */
  datatype TypeTag = UndefinedType | ObjectType | BooleanType | NumberType | StringType | FunctionType

  /** The `typeof` operator. */
  function TypeOf(x: JsVal): (r: TypeTag)
    ensures r == ObjectType <==> x.Obj? || x.Arr? || (x.Prim? && (x.v.Null? || x.v.Ref?))
    ensures r == FunctionType <==> x.Func?
    ensures r == StringType <==> x.Prim? && x.v.Str?
  {
    match x
    case Func(_) => FunctionType
    case Obj(_) => ObjectType
    case Arr(_) => ObjectType
    case Prim(v) =>
      match v
      case Undefined => UndefinedType
      case Null => ObjectType
      case Bool(_) => BooleanType
      case Num(_) => NumberType
      case Str(_) => StringType
      case Ref(_) => ObjectType
  }

  /** ToBoolean on any value: functions, objects and arrays are truthy. */
  predicate JsTruthy(x: JsVal) {
    match x
    case Prim(v) => Truthy(v)
    case _ => true
  }

  /** Reading `x[key]`: a TypeError (None) on `null` and `undefined`, the own
      property or `undefined` on a plain object. Properties that arrays,
      strings and functions inherit from their prototypes are not modelled. */
  function Get(x: JsVal, key: string): (r: Option<JsVal>)
    ensures r.None? <==> x == Prim(Null) || x == Prim(Undefined)
    ensures x.Obj? && key in x.props ==> r == Some(x.props[key])
  {
    match x
    case Prim(Null) => None
    case Prim(Undefined) => None
    case Obj(props) => Some(if key in props then props[key] else Prim(Undefined))
    case _ => Some(Prim(Undefined))
  }

  /** A plain object: its own property names, in the order
      `Object.getOwnPropertyNames` lists them, and the value of each. */
  datatype PropertyBag = PropertyBag(keys: seq<string>, props: map<string, JsVal>)

  /** Every JavaScript object lists each own property exactly once. */
  ghost predicate WellFormed(o: PropertyBag) {
    Distinct(o.keys) && (forall k :: k in o.keys <==> k in o.props)
  }

  type JsObject = o: PropertyBag | WellFormed(o) witness PropertyBag([], map[])
}
