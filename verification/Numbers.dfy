/**
 The numbers the formula language computes with: exact reals extended by the two infinities and
 NaN, because `min()` and `max()` without arguments are infinite and a lone "." reads as NaN.
 Binary rounding and negative zero are not part of this model.
 */
module Numbers {

  datatype Num = Fin(r: real) | PosInf | NegInf | NaN

  const ZERO := Fin(0.0)
  const ONE := Fin(1.0)

  function Negate(a: Num): Num {
    match a
    case Fin(r) => Fin(-r)
    case PosInf => NegInf
    case NegInf => PosInf
    case NaN => NaN
  }

  function Add(a: Num, b: Num): Num {
    match (a, b)
    case (Fin(x), Fin(y)) => Fin(x + y)
    case (NaN, _) => NaN
    case (_, NaN) => NaN
    case (Fin(_), _) => b
    case (_, Fin(_)) => a
    case (_, _) => if a == b then a else NaN
  }

  function Subtract(a: Num, b: Num): Num {
    Add(a, Negate(b))
  }

  /** The sign of an infinity or of a finite number. */
  function Sign(a: Num): int
    requires !a.NaN?
  {
    match a
    case Fin(r) => if r > 0.0 then 1 else if r < 0.0 then -1 else 0
    case PosInf => 1
    case NegInf => -1
  }

  function Infinite(sign: int): Num {
    if sign > 0 then PosInf else if sign < 0 then NegInf else NaN
  }

  function Multiply(a: Num, b: Num): Num {
    if a.Fin? && b.Fin? then Fin(a.r * b.r)
    else if a.NaN? || b.NaN? then NaN
    else Infinite(Sign(a) * Sign(b))
  }

  /** Division as the formula language defines it: a zero divisor gives zero. */
  function Divide(a: Num, b: Num): Num {
    if b == ZERO then ZERO
    else if a.NaN? || b.NaN? then NaN
    else if a.Fin? && b.Fin? then Fin(a.r / b.r)
    else if a.Fin? then ZERO
    else if b.Fin? then Infinite(Sign(a) * Sign(b))
    else NaN
  }

  predicate Less(a: Num, b: Num) {
    match (a, b)
    case (NaN, _) => false
    case (_, NaN) => false
    case (Fin(x), Fin(y)) => x < y
    case (NegInf, _) => b != NegInf
    case (_, PosInf) => a != PosInf
    case (_, _) => false
  }

  /** Strict equality: NaN equals nothing, itself included. */
  predicate Same(a: Num, b: Num) {
    !a.NaN? && a == b
  }

  predicate AtMost(a: Num, b: Num) {
    Less(a, b) || Same(a, b)
  }

  function Least(xs: seq<Num>): Num {
    if xs == [] then PosInf
    else
      var rest := Least(xs[1..]);
      if xs[0].NaN? || rest.NaN? then NaN else if Less(xs[0], rest) then xs[0] else rest
  }

  function Greatest(xs: seq<Num>): Num {
    if xs == [] then NegInf
    else
      var rest := Greatest(xs[1..]);
      if xs[0].NaN? || rest.NaN? then NaN else if Less(rest, xs[0]) then xs[0] else rest
  }

  function Magnitude(a: Num): Num {
    match a
    case Fin(r) => Fin(if r < 0.0 then -r else r)
    case NegInf => PosInf
    case _ => a
  }

  function FloorOf(a: Num): Num {
    if a.Fin? then Fin(a.r.Floor as real) else a
  }

  function CeilOf(a: Num): Num {
    Negate(FloorOf(Negate(a)))
  }

  /** `Math.round`: halves go up. */
  function RoundOf(a: Num): Num {
    if a.Fin? then Fin((a.r + 0.5).Floor as real) else a
  }

  function Total(xs: seq<Num>): Num {
    if xs == [] then ZERO else Add(Total(xs[..|xs| - 1]), xs[|xs| - 1])
  }
}
