/** The few JavaScript value semantics the geocoder relies on: numbers with NaN
    and the infinities, truthiness, `parseFloat` and the relational operators. */
module JsValues {

  /** A JavaScript number. Finite numbers are exact reals here: the rounding of an
      IEEE-754 double is not modelled. */
  datatype Num = NaN | PosInf | NegInf | Finite(value: real)

  /** A value a caller may put in a coordinate array. */
  datatype JsValue = JsNumber(n: Num) | JsString(s: string) | JsNull | JsUndefined | JsBool(b: bool)

  /** `isNaN(n)` for a value that is already a number. */
  predicate IsNaN(n: Num) {
    n.NaN?
  }

  /** A number is falsy exactly when it is NaN or zero (either sign). */
  predicate NumTruthy(n: Num) {
    !n.NaN? && n != Finite(0.0)
  }

  /** A string is falsy exactly when it is empty. */
  predicate StringTruthy(s: string) {
    s != []
  }

  /** `parseFloat(v)`: the argument is turned into a string and its longest numeric
      prefix is read. A number reads back as itself; `null`, `undefined`, `true` and
      `false` have no numeric prefix; the text grammar for strings is `parseText`. */
  function ParseFloat(v: JsValue, parseText: string -> Num): (r: Num)
    ensures v.JsNumber? ==> r == v.n
    ensures !v.JsNumber? && !v.JsString? ==> r.NaN?
  {
    match v
    case JsNumber(n) => n
    case JsString(s) => parseText(s)
    case JsNull => NaN
    case JsUndefined => NaN
    case JsBool(_) => NaN
  }

  /** JavaScript `a < b` on numbers: false whenever NaN is involved, and the
      infinities bound every other number. On finite numbers it is `<` on reals. */
  predicate Less(a: Num, b: Num): (r: bool)
    ensures (a.NaN? || b.NaN?) ==> !r
    ensures a.Finite? && b.Finite? ==> (r <==> a.value < b.value)
    ensures a.NegInf? && !b.NaN? && !b.NegInf? ==> r
    ensures a.PosInf? ==> !r
  {
    match (a, b)
    case (NaN, _) => false
    case (_, NaN) => false
    case (NegInf, NegInf) => false
    case (NegInf, _) => true
    case (PosInf, _) => false
    case (Finite(x), Finite(y)) => x < y
    case (Finite(_), PosInf) => true
    case (Finite(_), NegInf) => false
  }

  /** JavaScript `a > b` on numbers: false whenever NaN is involved, `>` on reals
      for finite numbers. */
  predicate Greater(a: Num, b: Num): (r: bool)
    ensures (a.NaN? || b.NaN?) ==> !r
    ensures a.Finite? && b.Finite? ==> (r <==> a.value > b.value)
  {
    Less(b, a)
  }

  /** Without NaN the comparison is a strict total order: of two different numbers
      exactly one is below the other. */
  lemma LessTotal(a: Num, b: Num)
    requires !a.NaN? && !b.NaN?
    ensures Less(a, b) ==> !Less(b, a)
    ensures a != b ==> Less(a, b) || Less(b, a)
  {
  }
}
