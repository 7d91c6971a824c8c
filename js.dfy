/** JavaScript values as the handlers and components see them: truthiness,
    template-literal rendering and numeric coercion. Conversions that depend
    on floating point (number to text, text to number) are parameters. */
module Js {

  datatype Option<+T> = None | Some(value: T)

  /** A JavaScript number. NaN is kept apart because every comparison with it is
      false and it is falsy; infinities are not modelled. */
  datatype Number = NaN | Finite(value: real)

  /** A value read from a parsed JSON body, a database row or a component prop.
      `Obj` stands for any object or array. */
  datatype Value =
    | Undefined
    | Null
    | Bool(b: bool)
    | Num(n: Number)
    | Str(s: string)
    | Obj

  /** JavaScript truthiness: `undefined`, `null`, `false`, `0`, `NaN` and `""` are falsy. */
  predicate Truthy(v: Value) {
    match v
    case Undefined => false
    case Null => false
    case Bool(b) => b
    case Num(n) => n.Finite? && n.value != 0.0
    case Str(s) => s != ""
    case Obj => true
  }

  /** `v || alt` */
  function Or(v: Value, alt: Value): Value {
    if Truthy(v) then v else alt
  }

  /** Number truthiness, as in `result.x && result.y`. */
  predicate NumberTruthy(n: Number) {
    Truthy(Num(n))
  }

  /** `a <= b` on numbers: false whenever either side is NaN. */
  predicate AtMost(a: Number, b: Number) {
    a.Finite? && b.Finite? && a.value <= b.value
  }

  /** `${v}` in a template literal; `numberToString` is JavaScript's Number::toString. */
  function Template(v: Value, numberToString: Number -> string): string {
    match v
    case Undefined => "undefined"
    case Null => "null"
    case Bool(b) => if b then "true" else "false"
    case Num(n) => numberToString(n)
    case Str(s) => s
    case Obj => "[object Object]"
  }

  /** `Number(v)`; `stringToNumber` is JavaScript's StringToNumber. Objects are
      taken as NaN (true of plain objects; arrays of one number differ). */
  function ToNumber(v: Value, stringToNumber: string -> Number): Number {
    match v
    case Undefined => NaN
    case Null => Finite(0.0)
    case Bool(b) => if b then Finite(1.0) else Finite(0.0)
    case Num(n) => n
    case Str(s) => stringToNumber(s)
    case Obj => NaN
  }

  /** `isNaN(n)` for a value that is already a number. */
  predicate IsNaN(n: Number) {
    n.NaN?
  }

  predicate IsDigit(c: char) {
    '0' <= c <= '9'
  }

  /** Decimal text of an integer, as a template literal renders an integral number. */
  function IntToString(n: int): (r: string)
    ensures |r| > 0
    ensures n >= 0 ==> forall k :: 0 <= k < |r| ==> IsDigit(r[k])
    decreases if n < 0 then 1 - n else n
  {
    if n < 0 then "-" + IntToString(-n)
    else if n < 10 then [DigitChar(n)]
    else IntToString(n / 10) + [DigitChar(n % 10)]
  }

  function DigitChar(d: int): (c: char)
    requires 0 <= d < 10
    ensures IsDigit(c)
  {
    ['0', '1', '2', '3', '4', '5', '6', '7', '8', '9'][d]
  }
}
