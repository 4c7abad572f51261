/** The part of JavaScript number arithmetic the percentages of the system rely
    on: a ratio scaled to a percentage, which is NaN for 0/0 and an infinity for
    a non-zero numerator over 0, and the `>=` comparison, which is false
    whenever NaN is involved. Finite values are exact reals; rounding is not
    modelled. */
module JsNumber {
  datatype Num = Finite(value: real) | PositiveInfinity | NegativeInfinity | NaN

  /** `(part / whole) * 100`. */
  function Percent(part: real, whole: real): (r: Num)
    ensures whole != 0.0 ==> r.Finite? && r.value * whole == 100.0 * part
    ensures whole == 0.0 ==> (r.NaN? <==> part == 0.0)
    ensures whole == 0.0 ==> (r.PositiveInfinity? <==> part > 0.0)
    ensures whole == 0.0 ==> (r.NegativeInfinity? <==> part < 0.0)
  {
    if whole != 0.0 then
      var q := part / whole;
      assert q * whole == part;
      assert (q * 100.0) * whole == 100.0 * (q * whole);
      Finite(q * 100.0)
    else if part > 0.0 then PositiveInfinity
    else if part < 0.0 then NegativeInfinity
    else NaN
  }

  /** `x >= t` for a finite threshold `t`. */
  predicate AtLeast(x: Num, t: real) {
    match x
    case Finite(v) => v >= t
    case PositiveInfinity => true
    case NegativeInfinity => false
    case NaN => false
  }

  /** For a positive whole, reaching a percentage threshold is a comparison of
      the numerator with the threshold's share of the whole, so no division is
      needed to decide it. */
  lemma PercentAtLeast(part: real, whole: real, t: real)
    requires whole > 0.0
    ensures AtLeast(Percent(part, whole), t) <==> 100.0 * part >= t * whole
  {
    var v := Percent(part, whole).value;
    ScaleByPositive(t, v, whole);
  }

  /** A finite percentage of a part between zero and the whole lies in [0, 100]. */
  lemma PercentBounds(part: real, whole: real)
    requires 0.0 <= part <= whole && whole > 0.0
    ensures Percent(part, whole).Finite?
    ensures 0.0 <= Percent(part, whole).value <= 100.0
  {
    var v := Percent(part, whole).value;
    ScaleByPositive(0.0, v, whole);
    ScaleByPositive(v, 100.0, whole);
  }

  /** Multiplying both sides by a positive factor keeps their order. */
  lemma ScaleByPositive(a: real, b: real, w: real)
    requires w > 0.0
    ensures a <= b <==> a * w <= b * w
  {
    if a <= b {
      assert (b - a) * w >= 0.0;
    } else {
      assert (a - b) * w > 0.0;
    }
  }
}
