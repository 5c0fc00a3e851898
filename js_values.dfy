/** The slice of JavaScript's value model that the method-call dispatcher
    observes: which values are truthy, what `typeof` answers, `===`, and
    how a call completes (a returned value or a thrown one). */
module JsValues {

  datatype Option<+T> = None | Some(value: T)

  /** A JavaScript number. Both zeros are `Finite(0.0)`: they are equal
      under `===` and both falsy, which is all the dispatcher looks at. */
  datatype Number = Finite(r: real) | NaN | Infinity(negative: bool)

  /** A JavaScript value. `Obj` and `Function` are host objects, told apart
      by an identity; `Record` is a plain object literal whose own
      properties all hold strings, the shape `cloneStyle` builds. */
  datatype JsValue =
    | Undefined
    | Null
    | Bool(b: bool)
    | Num(n: Number)
    | Str(s: string)
    | Obj(id: nat)
    | Function(id: nat)
    | Record(props: map<string, string>)

  /** ToBoolean: the test that `!x`, `x && y` and `c ? a : b` apply. */
  predicate Truthy(v: JsValue) {
    match v
    case Undefined => false
    case Null => false
    case Bool(b) => b
    case Num(n) => n.Infinity? || (n.Finite? && n.r != 0.0)
    case Str(s) => s != ""
    case _ => true
  }

  /** The `typeof` operator. */
  function TypeOf(v: JsValue): (r: string) {
    match v
    case Undefined => "undefined"
    case Null => "object"
    case Bool(_) => "boolean"
    case Num(_) => "number"
    case Str(_) => "string"
    case Obj(_) => "object"
    case Function(_) => "function"
    case Record(_) => "object"
  }

  /** `a === b`: NaN equals nothing, every other value only itself. */
  predicate StrictEquals(a: JsValue, b: JsValue) {
    a == b && a != Num(NaN)
  }

  /** The falsy values are exactly null, undefined, false, 0, NaN and ''. */
  lemma FalsyValues(v: JsValue)
    ensures !Truthy(v) <==>
      v == Null || v == Undefined || v == Bool(false) ||
      v == Num(Finite(0.0)) || v == Num(NaN) || v == Str("")
  {
  }

  /** What a thrown value is: an `Error` the dispatcher itself raises with a
      message, the `TypeError` the engine raises for a call through a missing
      table entry, or whatever a native method throws. */
  datatype Thrown = Error(message: string) | MissingEntryTypeError | Native(exception: JsValue)

  /** How a call completes. */
  datatype Completion = Normal(value: JsValue) | Abrupt(thrown: Thrown)
}
