/**
 * The JavaScript values the client stores in its records, the numbers that
 * its arithmetic produces, and the outcome of one request to the API.
 */
module Values {

  /** A JSON scalar held in a record field; Undefined is an absent field. */
  datatype Value = Undefined | Null | Bool(b: bool) | Num(x: real) | Str(s: string)

  /** A plain JavaScript object of scalar fields. */
  type Record = map<string, Value>

  datatype Option<T> = None | Some(value: T)

  /** What one call of the API answered: its decoded JSON, or a rejection
      (network failure, a non-2xx status or an undecodable body). */
  datatype Reply<T> = Ok(value: T) | Err

  /** Property read `r.k`. */
  function Get(r: Record, k: string): (v: Value)
    ensures k !in r ==> v == Undefined
    ensures k in r ==> v == r[k]
  {
    if k in r then r[k] else Undefined
  }

  /** ECMAScript ToBoolean on a scalar. */
  predicate Truthy(v: Value) {
    match v
    case Undefined => false
    case Null => false
    case Bool(b) => b
    case Num(x) => x != 0.0
    case Str(s) => s != ""
  }

  /** A JavaScript number as the statistics compute it: NaN, or a finite amount. */
  datatype Number = NaN | Fin(x: real)

  /** `a + b` on numbers: NaN absorbs. */
  function Plus(a: Number, b: Number): (r: Number)
    ensures r.Fin? <==> a.Fin? && b.Fin?
    ensures r.Fin? ==> r.x == a.x + b.x
  {
    if a.Fin? && b.Fin? then Fin(a.x + b.x) else NaN
  }

  function Minus(a: Number, b: Number): (r: Number)
    ensures r.Fin? <==> a.Fin? && b.Fin?
    ensures r.Fin? ==> r.x == a.x - b.x
  {
    if a.Fin? && b.Fin? then Fin(a.x - b.x) else NaN
  }

  /** ToBoolean on a number: 0 and NaN are falsy. */
  predicate NumberTruthy(n: Number) {
    n.Fin? && n.x != 0.0
  }

  /** `parseFloat(v)` for amounts held as numbers: a number is itself, and
      undefined, null and booleans give NaN. */
  function ParseFloat(v: Value): (r: Number)
    ensures r.Fin? <==> v.Num?
    ensures v.Num? ==> r.x == v.x
  {
    if v.Num? then Fin(v.x) else NaN
  }
}
