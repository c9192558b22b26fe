/** Shares and means, with just enough arithmetic to compare them. */
module Fractions {

  function Fraction(part: nat, whole: nat): real
    requires whole > 0
  {
    part as real / whole as real
  }

  lemma TimesWhole(part: nat, whole: nat)
    requires whole > 0
    ensures Fraction(part, whole) * whole as real == part as real
  {
  }

  function Product(x: real, y: real): real { x * y }

  lemma SumTimes(x: real, y: real, w: real)
    ensures (x + y) * w == x * w + y * w
  {
  }

  lemma PositiveProduct(x: real, w: real)
    requires x > 0.0 && w > 0.0
    ensures x * w > 0.0
  {
  }

  lemma CompareByProduct(a: real, b: real, w: real)
    requires w > 0.0 && a * w <= b * w
    ensures a <= b
  {
    if a > b {
      PositiveProduct(a - b, w);
    }
  }

  lemma FractionGrows(p: nat, q: nat, whole: nat)
    requires whole > 0 && p <= q
    ensures Fraction(p, whole) <= Fraction(q, whole)
  {
    TimesWhole(p, whole);
    TimesWhole(q, whole);
    CompareByProduct(Fraction(p, whole), Fraction(q, whole), whole as real);
  }

  lemma FractionEnds(p: nat, whole: nat)
    requires whole > 0 && p <= whole
    ensures 0.0 <= Fraction(p, whole) <= 1.0
    ensures Fraction(p, whole) == 1.0 <==> p == whole
    ensures Fraction(0, whole) == 0.0
  {
    TimesWhole(p, whole);
    TimesWhole(0, whole);
    TimesWhole(whole, whole);
    FractionGrows(0, p, whole);
    FractionGrows(p, whole, whole);
  }

  function Mean(total: real, n: nat): real
    requires n > 0
  {
    total / n as real
  }

  lemma MeanTimesCount(total: real, n: nat)
    requires n > 0
    ensures Mean(total, n) * n as real == total
  {
  }

  lemma MeanGrows(t: real, u: real, n: nat)
    requires n > 0 && t <= u
    ensures Mean(t, n) <= Mean(u, n)
  {
    MeanTimesCount(t, n);
    MeanTimesCount(u, n);
    CompareByProduct(Mean(t, n), Mean(u, n), n as real);
  }

  lemma MeanEnds(t: real, n: nat)
    requires n > 0 && 0.0 <= t <= n as real
    ensures 0.0 <= Mean(t, n) <= 1.0
    ensures Mean(t, n) == 1.0 <==> t == n as real
  {
    MeanTimesCount(t, n);
    CompareByProduct(0.0, Mean(t, n), n as real);
    CompareByProduct(Mean(t, n), 1.0, n as real);
    if t == n as real {
      CompareByProduct(1.0, Mean(t, n), n as real);
    }
  }

  // ----- Products and quotients

  function Quotient(x: real, y: real): real
    requires y != 0.0
  {
    x / y
  }

  lemma QuotientTimes(x: real, y: real)
    requires y != 0.0
    ensures Product(Quotient(x, y), y) == x
  {
  }

  lemma ProductGrows(w: real, x: real, y: real)
    requires w >= 0.0 && x <= y
    ensures Product(w, x) <= Product(w, y) && Product(w, 0.0) == 0.0
  {
  }

  /** A larger numerator over the same denominator is no smaller. */
  lemma NumeratorGrows(x: real, y: real, w: real)
    requires w > 0.0 && x <= y
    ensures Quotient(x, w) <= Quotient(y, w)
  {
    QuotientTimes(x, w);
    QuotientTimes(y, w);
    CompareByProduct(Quotient(x, w), Quotient(y, w), w);
  }

  /** A larger denominator under the same numerator gives no more. */
  lemma DenominatorGrows(x: real, v: real, w: real)
    requires 0.0 < v <= w && x >= 0.0
    ensures 0.0 <= Quotient(x, w) <= Quotient(x, v)
  {
    QuotientTimes(x, v);
    QuotientTimes(x, w);
    CompareByProduct(0.0, Quotient(x, w), w);
    ProductGrows(Quotient(x, w), v, w);
    CompareByProduct(Quotient(x, w), Quotient(x, v), v);
  }

  lemma DenominatorGrowsStrictly(x: real, v: real, w: real)
    requires 0.0 < v < w && x > 0.0
    ensures 0.0 < Quotient(x, w) < Quotient(x, v)
  {
    DenominatorGrows(x, v, w);
    QuotientTimes(x, v);
    QuotientTimes(x, w);
    PositiveProduct(w - v, Quotient(x, w));
  }

  lemma FactorCancels(x: real, w: real)
    requires w > 0.0
    ensures Quotient(Product(x, w), w) == x && Quotient(Product(w, x), w) == x
  {
    QuotientTimes(Product(x, w), w);
    CompareByProduct(Quotient(Product(x, w), w), x, w);
    CompareByProduct(x, Quotient(Product(x, w), w), w);
  }

  /** The share `f` has of `f + q`, of an amount `m`: never more than all of it. */
  lemma ShareBounded(f: real, q: real, m: real)
    requires f > 0.0 && q >= 0.0 && m >= 0.0
    ensures 0.0 <= Quotient(Product(f, m), f + q) <= m
  {
    ProductGrows(f, 0.0, m);
    ProductGrows(m, f, f + q);
    DenominatorGrows(Product(f, m), f + q, f + q);
    NumeratorGrows(Product(f, m), Product(m, f + q), f + q);
    FactorCancels(m, f + q);
  }

  /** It grows with `f`. */
  lemma ShareGrows(f: real, g: real, q: real, m: real)
    requires 0.0 < f <= g && q >= 0.0 && m >= 0.0
    ensures Quotient(Product(f, m), f + q) <= Quotient(Product(g, m), g + q)
  {
    QuotientTimes(Product(f, m), f + q);
    QuotientTimes(Product(g, m), g + q);
    CrossMultiply(Quotient(Product(f, m), f + q), Quotient(Product(g, m), g + q), f, g, q, m);
  }

  lemma CrossMultiply(a: real, b: real, f: real, g: real, q: real, m: real)
    requires 0.0 < f <= g && q >= 0.0 && m >= 0.0 && a * (f + q) == f * m && b * (g + q) == g * m
    ensures a <= b
  {
    ProductGrows(q, f, g);
    var left, right := (a * (f + q)) * (g + q), (b * (g + q)) * (f + q);
    assert left == m * (f * g + f * q) && right == m * (f * g + g * q);
    ProductGrows(m, f * g + f * q, f * g + g * q);
    assert a * ((f + q) * (g + q)) == left && b * ((f + q) * (g + q)) == right;
    PositiveProduct(f + q, g + q);
    CompareByProduct(a, b, (f + q) * (g + q));
  }
}
