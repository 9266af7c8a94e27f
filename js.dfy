/** The JavaScript values that the normaliser inspects with `typeof`,
    `Array.isArray`, `Number.isFinite` and truthiness. */
module Js {
  import opened Wrappers

  /** A JavaScript number: a finite real, or one of the three special values. */
  datatype Number = Finite(value: real) | NaN | PosInfinity | NegInfinity

  /** A field of a raw record whose type the source tests before using it. */
  datatype Value =
    | Undefined
    | Null
    | Bool(b: bool)
    | Num(n: Number)
    | Str(s: string)
    | Arr(elems: seq<Value>)
    | Obj

  /** JavaScript truthiness: `undefined`, `null`, `false`, `0`, `NaN` and `""` are falsy. */
  predicate Truthy(v: Value) {
    match v
    case Undefined => false
    case Null => false
    case Bool(b) => b
    case Num(n) => n != NaN && n != Finite(0.0)
    case Str(s) => s != ""
    case Arr(_) => true
    case Obj => true
  }

  /** `typeof v === "number" && Number.isFinite(v)`. */
  predicate IsFiniteNumber(v: Value) {
    v.Num? && v.n.Finite?
  }

  /** A text field that is present and non-empty, i.e. truthy. */
  predicate Present(t: Option<string>) {
    t.Some? && t.value != ""
  }

  /** `a || b || null` on optional text: the first truthy operand, else `null`. */
  function Or(a: Option<string>, b: Option<string>): (r: Option<string>)
    ensures r == None || Present(r)
    ensures Present(a) ==> r == a
    ensures !Present(a) && Present(b) ==> r == b
    ensures !Present(a) && !Present(b) ==> r == None
  {
    if Present(a) then a else if Present(b) then b else None
  }

  /** JavaScript's `x <= y` on two numbers: false whenever either is NaN. */
  predicate Le(x: Number, y: Number) {
    match x
    case NaN => false
    case NegInfinity => y != NaN
    case PosInfinity => y == PosInfinity
    case Finite(a) => y == PosInfinity || (y.Finite? && a <= y.value)
  }

  /** Apart from NaN, the numbers are totally ordered by `<=`. */
  lemma LeOrdersNumbers(x: Number, y: Number, z: Number)
    requires x != NaN && y != NaN && z != NaN
    ensures Le(x, x)
    ensures Le(x, y) || Le(y, x)
    ensures Le(x, y) && Le(y, z) ==> Le(x, z)
  {
  }
}
