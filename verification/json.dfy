/**
 * The raw, already decoded JSON document (or Python call argument) that the
 * validators receive. Numbers are Python floats: a finite value, NaN or one of
 * the two infinities, which the JSON decoder and Python calls both admit.
 */
module Json {

  datatype Float = Finite(value: real) | NaN | PosInf | NegInf

  datatype Value =
    | Null
    | Bool(b: bool)
    | Num(n: Float)
    | Str(s: string)
    | Arr(items: seq<Value>)
    | Obj(fields: map<string, Value>)

  /** `x >= bound` as a float comparison: NaN compares false, +inf is above everything. */
  predicate AtLeast(x: Float, bound: real)
  {
    match x
    case Finite(v) => v >= bound
    case PosInf => true
    case NegInf => false
    case NaN => false
  }

  /** `x > bound` as a float comparison. */
  predicate Above(x: Float, bound: real)
  {
    match x
    case Finite(v) => v > bound
    case PosInf => true
    case NegInf => false
    case NaN => false
  }

  /** `x < bound` as a float comparison. */
  predicate Below(x: Float, bound: real)
  {
    match x
    case Finite(v) => v < bound
    case PosInf => false
    case NegInf => true
    case NaN => false
  }

  /** `x <= bound` as a float comparison. */
  predicate AtMost(x: Float, bound: real)
  {
    match x
    case Finite(v) => v <= bound
    case PosInf => false
    case NegInf => true
    case NaN => false
  }

  /** A closed real interval admits exactly the finite floats inside it: NaN and both infinities fail. */
  lemma ClosedIntervalIsFinite(x: Float, lo: real, hi: real)
    ensures AtLeast(x, lo) && AtMost(x, hi) <==> x.Finite? && lo <= x.value <= hi
  {
  }

  /** A half-open real interval admits exactly the finite floats inside it. */
  lemma HalfOpenIntervalIsFinite(x: Float, lo: real, hi: real)
    ensures AtLeast(x, lo) && Below(x, hi) <==> x.Finite? && lo <= x.value < hi
  {
  }
}
