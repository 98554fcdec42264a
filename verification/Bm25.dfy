/**
 The arithmetic of the ranking: what a term is worth, and what one document gets for it.
 The logarithm is any strictly increasing function that is zero at one.
 */
module Bm25 {

  const IDF_FLOOR: real := 0.0

  ghost predicate LogLike(ln: real -> real) {
    && ln(1.0) == 0.0
    && forall x, y :: 0.0 < x < y ==> ln(x) < ln(y)
  }

  function Max(a: real, b: real): real { if a >= b then a else b }

  function Clamp(n: int, top: int): int {
    var low := if n > 0 then n else 0;
    var high := if top > 0 then top else 0;
    if low < high then low else high
  }

  // The frequency is clamped so that the argument is positive whatever a caller passes.
  function Idf(ln: real -> real, documents: int, frequency: int): real {
    var f := Clamp(frequency, documents);
    if documents <= 0 then IDF_FLOOR
    else Max(IDF_FLOOR, ln(((documents - f) as real + 0.5) / (f as real + 0.5)))
  }

  lemma Scaled(c: real, x: real, y: real)
    requires c > 0.0 && x < y
    ensures c * x < c * y
  {
  }

  lemma PositiveFactor(a: real, c: real)
    requires c > 0.0 && a * c > 0.0
    ensures a > 0.0
  {
  }

  lemma Spread(f: real, g: real, n: real)
    ensures f * (g + n) == f * g + n * f
  {
  }

  lemma CrossMultiply(p: real, q: real, r: real, s: real)
    requires q > 0.0 && s > 0.0 && p * s < r * q
    ensures p / q < r / s
  {
    var x, y := p / q, r / s;
    assert x * q == p && y * s == r;
    assert p * s == x * (q * s) && r * q == y * (q * s);
    assert (y - x) * (q * s) == r * q - p * s;
    Scaled(q, 0.0, s);
    PositiveFactor(y - x, q * s);
  }

  // A term has positive weight exactly when fewer than half the documents contain it.
  lemma IdfPositiveIff(ln: real -> real, documents: int, frequency: int)
    requires LogLike(ln) && 0 <= frequency <= documents
    ensures Idf(ln, documents, frequency) > IDF_FLOOR <==> 2 * frequency < documents
  {
    var top, bottom := (documents - frequency) as real + 0.5, frequency as real + 0.5;
    assert Clamp(frequency, documents) == frequency;
    assert 1.0 == bottom / bottom;
    if 2 * frequency < documents {
      CrossMultiply(bottom, bottom, top, bottom);
      assert ln(1.0) < ln(top / bottom);
    } else if top < bottom {
      CrossMultiply(top, bottom, bottom, bottom);
      CrossMultiply(0.0, bottom, top, bottom);
      assert ln(top / bottom) < ln(1.0);
    } else {
      assert top == bottom;
    }
  }

  lemma RisesWith(ln: real -> real, x: real, y: real)
    requires LogLike(ln) && 0.0 < x < y
    ensures ln(x) < ln(y)
  {
  }

  // A rarer term weighs more, as long as it weighs anything.
  lemma RarerWeighsMore(ln: real -> real, documents: int, f: int, g: int)
    requires LogLike(ln) && 0 <= f < g <= documents && 2 * f < documents
    ensures Idf(ln, documents, f) > Idf(ln, documents, g)
  {
    IdfPositiveIff(ln, documents, f);
    var p, q := (documents - g) as real + 0.5, g as real + 0.5;
    var r, s := (documents - f) as real + 0.5, f as real + 0.5;
    assert p * s < r * q by {
      Scaled(s, p, r);
      Scaled(r, s, q);
    }
    CrossMultiply(p, q, r, s);
    CrossMultiply(0.0, q, p, q);
    RisesWith(ln, p / q, r / s);
  }

  // --------------------------------------------------------------- one document

  function Normaliser(k1: real, b: real, length: real, average: real): real
    requires average != 0.0
  {
    k1 * (1.0 - b + b * (length / average))
  }

  function Contribution(weight: real, count: real, k1: real, normaliser: real): real
    requires count + normaliser != 0.0
  {
    weight * (count * (k1 + 1.0)) / (count + normaliser)
  }

  lemma NormaliserPositive(k1: real, b: real, length: real, average: real)
    requires k1 > 0.0 && 0.0 <= b < 1.0 && length >= 0.0 && average > 0.0
    ensures Normaliser(k1, b, length, average) > 0.0
  {
    var ratio := length / average;
    assert ratio * average == length;
    assert ratio >= 0.0;
    assert b * ratio >= 0.0;
    var inner := 1.0 - b + b * ratio;
    assert inner > 0.0 && k1 * inner > 0.0;
  }

  lemma NormaliserGrows(k1: real, b: real, l: real, m: real, average: real)
    requires k1 > 0.0 && 0.0 < b && l < m && average > 0.0
    ensures Normaliser(k1, b, l, average) < Normaliser(k1, b, m, average)
  {
    var x, y := l / average, m / average;
    assert x < y by {
      Scaled(average, l, m);
      CrossMultiply(l, average, m, average);
    }
    Scaled(b, x, y);
    var u, v := 1.0 - b + b * x, 1.0 - b + b * y;
    Scaled(k1, u, v);
    assert Normaliser(k1, b, l, average) == k1 * u && Normaliser(k1, b, m, average) == k1 * v;
  }

  // The contribution is the weight, scaled and saturated.
  lemma ContributionAsProduct(weight: real, count: real, k1: real, n: real)
    requires count + n != 0.0
    ensures Contribution(weight, count, k1, n) == weight * (k1 + 1.0) * (count / (count + n))
  {
    var d := count + n;
    var s := count / d;
    assert s * d == count;
    assert weight * (count * (k1 + 1.0)) == (weight * (k1 + 1.0) * s) * d;
  }

  // More occurrences are worth strictly more.
  lemma MoreOccurrencesScoreMore(weight: real, f: real, g: real, k1: real, n: real)
    requires weight > 0.0 && k1 > 0.0 && n > 0.0 && 0.0 <= f < g
    ensures Contribution(weight, f, k1, n) < Contribution(weight, g, k1, n)
  {
    ContributionAsProduct(weight, f, k1, n);
    ContributionAsProduct(weight, g, k1, n);
    Spread(f, g, n);
    Spread(g, f, n);
    Scaled(n, f, g);
    CrossMultiply(f, f + n, g, g + n);
    assert weight * (k1 + 1.0) > 0.0;
    Scaled(weight * (k1 + 1.0), f / (f + n), g / (g + n));
  }

  // In a longer document the same occurrences are worth strictly less.
  lemma LongerScoresLess(weight: real, count: real, k1: real, b: real, l: real, m: real, average: real)
    requires weight > 0.0 && k1 > 0.0 && 0.0 < b < 1.0 && count > 0.0 && 0.0 <= l < m && average > 0.0
    ensures
      var n, o := Normaliser(k1, b, l, average), Normaliser(k1, b, m, average);
      n > 0.0 && o > 0.0 && Contribution(weight, count, k1, o) < Contribution(weight, count, k1, n)
  {
    var n, o := Normaliser(k1, b, l, average), Normaliser(k1, b, m, average);
    NormaliserPositive(k1, b, l, average);
    NormaliserGrows(k1, b, l, m, average);
    ContributionAsProduct(weight, count, k1, n);
    ContributionAsProduct(weight, count, k1, o);
    assert count * (count + n) < count * (count + o) by { Scaled(count, count + n, count + o); }
    CrossMultiply(count, count + o, count, count + n);
    assert weight * (k1 + 1.0) > 0.0;
    Scaled(weight * (k1 + 1.0), count / (count + o), count / (count + n));
  }

  // However often a term occurs, it is worth something and less than (k1 + 1) times its weight.
  lemma Saturates(weight: real, count: real, k1: real, n: real)
    requires weight > 0.0 && k1 > 0.0 && n > 0.0 && count > 0.0
    ensures 0.0 < Contribution(weight, count, k1, n) < weight * (k1 + 1.0)
  {
    ContributionAsProduct(weight, count, k1, n);
    var s := count / (count + n);
    CrossMultiply(count, count + n, 1.0, 1.0);
    CrossMultiply(0.0, 1.0, count, count + n);
    assert weight * (k1 + 1.0) > 0.0;
    Scaled(weight * (k1 + 1.0), s, 1.0);
    Scaled(weight * (k1 + 1.0), 0.0, s);
  }
}
