/**
  JavaScript numbers as the provider adapters see them: every value read
  from a payload goes through numeric coercion (`+x`), and the adapters
  divide by payload values without guarding against zero, so a quotient
  can be infinite or NaN. `Num` keeps exactly the distinctions the
  adapters' code observes: a finite value, a signed infinity, or NaN.
  Finite arithmetic is exact (no rounding) and zero carries no sign.
*/
module Numbers {

  datatype Num = Fin(value: real) | Inf(negative: bool) | NaN

  /** JavaScript truthiness of a number: `!x` holds exactly for 0 and NaN. */
  predicate Truthy(x: Num)
  {
    match x
    case Fin(v) => v != 0.0
    case Inf(_) => true
    case NaN => false
  }

  /** `isFinite(x)` */
  predicate IsFinite(x: Num)
  {
    x.Fin?
  }

  /** The sign of a finite, non-zero factor flips the sign of an infinity. */
  function Signed(negative: bool, flip: bool): Num
  {
    Inf(negative != flip)
  }

  /** IEEE division `a / b` (zero taken as +0). */
  function Div(a: Num, b: Num): (r: Num)
    ensures a.Fin? && b.Fin? && b.value != 0.0 ==> r == Fin(a.value / b.value)
    ensures a.NaN? || b.NaN? ==> r.NaN?
    ensures a.Fin? && a.value != 0.0 && b == Fin(0.0) ==> r.Inf? && (r.negative <==> a.value < 0.0)
    ensures a == Fin(0.0) && b == Fin(0.0) ==> r.NaN?
    ensures a.Fin? && b.Inf? ==> r == Fin(0.0)
    ensures a.Inf? && b.Inf? ==> r.NaN?
  {
    match (a, b)
    case (NaN, _) => NaN
    case (_, NaN) => NaN
    case (Fin(x), Fin(y)) =>
      if y != 0.0 then Fin(x / y)
      else if x > 0.0 then Inf(false)
      else if x < 0.0 then Inf(true)
      else NaN
    case (Fin(_), Inf(_)) => Fin(0.0)
    case (Inf(n), Fin(y)) => Signed(n, y < 0.0)
    case (Inf(_), Inf(_)) => NaN
  }

  /** IEEE multiplication `a * b` (zero taken as +0). */
  function Mul(a: Num, b: Num): (r: Num)
    ensures a.Fin? && b.Fin? ==> r == Fin(a.value * b.value)
    ensures a.NaN? || b.NaN? ==> r.NaN?
    ensures a.Inf? && b == Fin(0.0) ==> r.NaN?
    ensures a == Fin(0.0) && b.Inf? ==> r.NaN?
  {
    if a.NaN? || b.NaN? then NaN
    else if a.Fin? && b.Fin? then Fin(a.value * b.value)
    else if a.Fin? then (if a.value == 0.0 then NaN else Signed(b.negative, a.value < 0.0))
    else if b.Fin? then (if b.value == 0.0 then NaN else Signed(a.negative, b.value < 0.0))
    else Inf(a.negative != b.negative)
  }

  /** A finite non-zero number divided by itself is exactly one. */
  lemma DivSelf(a: Num)
    requires a.Fin? && a.value != 0.0
    ensures Div(a, a) == Fin(1.0)
  {
  }

  /** Scaling numerator and denominator by the same positive factor does
      not change a quotient, whatever the two operands are. */
  lemma DivScaleInvariant(k: real, a: Num, b: Num)
    requires k > 0.0
    ensures Div(Mul(Fin(k), a), Mul(Fin(k), b)) == Div(a, b)
  {
    match (a, b)
    case (Fin(x), Fin(y)) =>
      if y != 0.0 {
        calc {
          (k * x) / (k * y);
          { assert (k * x) / (k * y) * (k * y) == k * x; }
          x / y;
        }
      } else {
        assert k * y == 0.0;
        assert k * x > 0.0 <==> x > 0.0;
        assert k * x < 0.0 <==> x < 0.0;
      }
    case _ =>
  }
}
