/** Length units of the merge dialog and the conversion between them
    (`convertUnit`). Every factor is the unit's length in millimetres, so the
    millimetre is the base unit. Arithmetic is over exact reals. */
module Units {

  datatype Unit = Mm | Cm | In | Pdf

  /** The unit's length in millimetres. The PDF point is stored as the
      truncated decimal 0.3527777777777, not as 25.4 / 72. */
  function Factor(u: Unit): (f: real)
    ensures f > 0.0
  {
    match u
    case Mm => 1.0
    case Cm => 10.0
    case In => 25.4
    case Pdf => 0.3527777777777
  }

  /** `value` measured in `from`, expressed in `to`: the length in millimetres is
      the same before and after. */
  function ConvertUnit(value: real, from: Unit, to: Unit): (r: real)
    ensures r * Factor(to) == value * Factor(from)
  {
    value * Factor(from) / Factor(to)
  }

  /** Converting into the base unit multiplies by the factor. */
  lemma ConvertToMillimetres(value: real, from: Unit)
    ensures ConvertUnit(value, from, Mm) == value * Factor(from)
  {
  }

  /** Converting a unit to itself returns the value. */
  lemma ConvertToSelf(value: real, u: Unit)
    ensures ConvertUnit(value, u, u) == value
  {
  }

  /** Converting through an intermediate unit equals converting directly. */
  lemma ConvertCompose(value: real, a: Unit, b: Unit, c: Unit)
    ensures ConvertUnit(ConvertUnit(value, a, b), b, c) == ConvertUnit(value, a, c)
  {
    var mid := ConvertUnit(value, a, b);
    var direct := ConvertUnit(value, a, c);
    var via := ConvertUnit(mid, b, c);
    assert via * Factor(c) == mid * Factor(b) == value * Factor(a) == direct * Factor(c);
    CancelPositive(via, direct, Factor(c));
  }

  /** Converting a -> b -> a returns the value. */
  lemma ConvertRoundTrip(value: real, a: Unit, b: Unit)
    ensures ConvertUnit(ConvertUnit(value, a, b), b, a) == value
  {
    ConvertCompose(value, a, b, a);
    ConvertToSelf(value, a);
  }

  /** Conversion keeps the sign and the order of lengths. */
  lemma ConvertMonotone(x: real, y: real, from: Unit, to: Unit)
    requires x <= y
    ensures ConvertUnit(x, from, to) <= ConvertUnit(y, from, to)
  {
    var fx, fy := ConvertUnit(x, from, to), ConvertUnit(y, from, to);
    assert fx * Factor(to) <= fy * Factor(to);
  }

  /** 72 points fall just short of one inch, because the point factor is a
      truncated decimal. */
  lemma SeventyTwoPointsNearlyAnInch()
    ensures 0.99999999999 < ConvertUnit(72.0, Pdf, In) < 1.0
  {
  }

  lemma CancelPositive(x: real, y: real, f: real)
    requires f > 0.0 && x * f == y * f
    ensures x == y
  {
  }
}
