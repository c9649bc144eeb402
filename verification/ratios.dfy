/** Exact arithmetic on the fractions the charts draw: a count over a total, scaled to
    a percentage. */
module Ratios {
  /** Multiplying by a positive number keeps the order. */
  lemma ScaleMonotone(x: real, y: real, t: real)
    requires t > 0.0
    ensures x < y ==> x * t < y * t
    ensures x <= y ==> x * t <= y * t
  {
  }

  /** Dividing and multiplying back by the same non-zero number gives the start. */
  lemma DivTimes(a: real, t: real)
    requires t != 0.0
    ensures (a / t) * t == a
  {
  }

  /** A part of a whole is a fraction between 0 and 1, and exactly 1 when it is all of it. */
  lemma FractionBounds(part: int, whole: int)
    requires whole >= 1
    ensures 0 <= part <= whole ==> 0.0 <= part as real / whole as real <= 1.0
    ensures part == whole ==> part as real / whole as real == 1.0
  {
    var t := whole as real;
    var q := part as real / t;
    DivTimes(part as real, t);
    ScaleMonotone(q, 0.0, t);
    ScaleMonotone(q, 1.0, t);
    ScaleMonotone(1.0, q, t);
  }
}
