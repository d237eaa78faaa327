/** The part of JavaScript number arithmetic that the app.js pinch formula can
    reach: finite values as exact reals, the two infinities and NaN. Signed
    zero is not distinguished; every divisor the pinch sees is a distance or
    `null`, both of which are +0 when they are zero. */
module JsNumber {
  import opened Numeric

  datatype Num = Finite(v: real) | PosInf | NegInf | NaN

  /** `a / b` for finite operands, with +0 as the zero divisor. */
  function Div(a: real, b: real): (q: Num)
    ensures q.NaN? <==> a == 0.0 && b == 0.0
    ensures q.Finite? <==> b != 0.0
    ensures q.Finite? ==> q.v * b == a
    ensures q.PosInf? <==> b == 0.0 && a > 0.0
  {
    if b != 0.0 then Finite(a / b)
    else if a > 0.0 then PosInf
    else if a < 0.0 then NegInf
    else NaN
  }

  /** `x * s` for a finite right operand: infinity times zero is NaN. */
  function Mul(x: Num, s: real): (p: Num)
    ensures p.NaN? <==> x.NaN? || (!x.Finite? && s == 0.0)
    ensures p.Finite? <==> x.Finite?
    ensures x.Finite? ==> p == Finite(x.v * s)
    ensures (x.PosInf? && s > 0.0) || (x.NegInf? && s < 0.0) ==> p.PosInf?
    ensures (x.PosInf? && s < 0.0) || (x.NegInf? && s > 0.0) ==> p.NegInf?
  {
    match x
    case Finite(v) => Finite(v * s)
    case PosInf => if s > 0.0 then PosInf else if s < 0.0 then NegInf else NaN
    case NegInf => if s > 0.0 then NegInf else if s < 0.0 then PosInf else NaN
    case NaN => NaN
  }

  /** `Math.max(r.lo, Math.min(x, r.hi))` on a number that may be special:
      NaN passes through, an infinity saturates at the matching bound. */
  function ClampNum(x: Num, r: Range): (c: Num)
    ensures c.NaN? <==> x.NaN?
    ensures !c.NaN? ==> c.Finite?
    ensures c.Finite? && r.Valid() ==> r.Contains(c.v)
    ensures x.Finite? ==> c == Finite(Clamp(x.v, r))
    ensures x.PosInf? && r.Valid() ==> c == Finite(r.hi)
    ensures x.NegInf? ==> c == Finite(r.lo)
  {
    match x
    case Finite(v) => Finite(Max(r.lo, Min(v, r.hi)))
    case PosInf => Finite(Max(r.lo, r.hi))
    case NegInf => Finite(r.lo)
    case NaN => NaN
  }
}
