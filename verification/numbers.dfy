/** The slice of JavaScript's `number` that the payout arithmetic relies on:
    comparisons, subtraction, `Math.abs` and `Math.min`, with NaN. */
module Numbers {

  /** A JavaScript number. `Num(value)` is an ordinary amount; `NaN` is
      not-a-number, which is also how an `undefined` field behaves under every
      comparison and arithmetic operation the engine applies to it. */
  datatype Number = Num(value: real) | NaN

  /** The amount zero. */
  const Zero: Number := Num(0.0)

  /** `a < b`: false whenever either side is NaN. */
  function Less(a: Number, b: Number): (r: bool)
    ensures a.NaN? || b.NaN? ==> !r
    ensures a.Num? && b.Num? ==> (r <==> a.value < b.value)
  {
    a.Num? && b.Num? && a.value < b.value
  }

  /** `a <= b`: false whenever either side is NaN, so it is not `!(b < a)`. */
  function LessEq(a: Number, b: Number): (r: bool)
    ensures a.NaN? || b.NaN? ==> !r
    ensures a.Num? && b.Num? ==> (r <==> !Less(b, a))
  {
    a.Num? && b.Num? && a.value <= b.value
  }

  /** `a - b`: NaN as soon as either side is. */
  function Sub(a: Number, b: Number): (r: Number)
    ensures r.NaN? <==> a.NaN? || b.NaN?
    ensures r.Num? ==> r.value + b.value == a.value
  {
    if a.NaN? || b.NaN? then NaN else Num(a.value - b.value)
  }

  /** `Math.abs`: the magnitude; NaN stays NaN. */
  function Abs(a: Number): (r: Number)
    ensures r.NaN? <==> a.NaN?
    ensures r.Num? ==> r.value >= 0.0 && (r.value == a.value || r.value == -a.value)
  {
    match a
    case NaN => NaN
    case Num(x) => if x < 0.0 then Num(-x) else Num(x)
  }

  /** `Math.min` of two arguments: NaN as soon as either is, otherwise the smaller. */
  function Min(a: Number, b: Number): (r: Number)
    ensures r.NaN? <==> a.NaN? || b.NaN?
    ensures r.Num? ==> r.value <= a.value && r.value <= b.value && (r.value == a.value || r.value == b.value)
  {
    if a.NaN? || b.NaN? then NaN
    else if a.value <= b.value then a
    else b
  }
}
