/**
 A similarity score `num / den` kept as two naturals instead of a float.
 The denominator is positive by type, so every score is a defined quotient;
 scores are compared by cross-multiplication.
 */
module Ratio {

  type Pos = n: nat | n >= 1 witness 1

  datatype Ratio = Ratio(num: nat, den: Pos)

  /** The quotient the float in the source approximates. */
  function Value(a: Ratio): real
  {
    a.num as real / a.den as real
  }

  /** `a <= b` as quotients. */
  predicate AtMost(a: Ratio, b: Ratio)
  {
    a.num * b.den <= b.num * a.den
  }

  /** `a < b` as quotients: the test Python's `max` uses to replace its candidate. */
  predicate Less(a: Ratio, b: Ratio)
  {
    a.num * b.den < b.num * a.den
  }

  /** `a == b` as quotients: the test Python's `list.index` uses. */
  predicate Same(a: Ratio, b: Ratio)
  {
    a.num * b.den == b.num * a.den
  }

  /** Cross-multiplication compares the same way as the quotients do. */
  lemma AtMostMeansValue(a: Ratio, b: Ratio)
    ensures AtMost(a, b) <==> Value(a) <= Value(b)
    ensures Less(a, b) <==> Value(a) < Value(b)
    ensures Same(a, b) <==> Value(a) == Value(b)
  {
    var x, y := a.num as real, b.num as real;
    var p, q := a.den as real, b.den as real;
    assert Value(a) == x / p && Value(b) == y / q;
    assert x / p == (x * q) / (p * q);
    assert y / q == (y * p) / (p * q);
    assert (a.num * b.den) as real == x * q;
    assert (b.num * a.den) as real == y * p;
  }

  lemma AtMostTransitive(a: Ratio, b: Ratio, c: Ratio)
    requires AtMost(a, b) && AtMost(b, c)
    ensures AtMost(a, c)
  {
    AtMostMeansValue(a, b);
    AtMostMeansValue(b, c);
    AtMostMeansValue(a, c);
  }

  lemma SameAtMost(a: Ratio, b: Ratio, c: Ratio)
    requires AtMost(a, b) && Same(b, c)
    ensures AtMost(a, c)
  {
    AtMostMeansValue(a, b);
    AtMostMeansValue(b, c);
    AtMostMeansValue(a, c);
  }

  /** A score lies in [0, 1] exactly when its numerator does not exceed its denominator. */
  lemma UnitInterval(a: Ratio)
    ensures 0.0 <= Value(a)
    ensures Value(a) <= 1.0 <==> a.num <= a.den
    ensures Value(a) == 1.0 <==> a.num == a.den
  {
    AtMostMeansValue(a, Ratio(1, 1));
    AtMostMeansValue(Ratio(1, 1), a);
  }
}
