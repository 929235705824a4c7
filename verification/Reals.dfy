/**
 Products and quotients of reals under a name. The proofs about whole sides hide the two
 definitions and use only the laws below, so that the solver meets no non-linear term there.
 */
module Reals {
  import opened Market

  function Times(a: real, b: real): real {
    a * b
  }

  function Over(a: real, b: real): real
    requires b != 0.0
  {
    a / b
  }

  /** At least as good an amount: more for a buyer of asks, less for a seller into bids. */
  predicate AsGood(side: Side, a: real, b: real) {
    if side.ASK? then a >= b else a <= b
  }

  lemma TimesOver(p: real, n: real)
    requires p != 0.0
    ensures Times(p, Over(n, p)) == n
  {
  }

  lemma TimesSum(p: real, a: real, b: real)
    ensures Times(p, a + b) == Times(p, a) + Times(p, b)
  {
  }

  lemma TimesZero(p: real)
    ensures Times(p, 0.0) == 0.0
  {
  }

  lemma TimesSign(p: real, x: real)
    requires p > 0.0
    ensures Times(p, x) > 0.0 <==> x > 0.0
    ensures Times(p, x) == 0.0 <==> x == 0.0
  {
    assert x < 0.0 ==> p * x < 0.0;
    assert x > 0.0 ==> p * x > 0.0;
  }

  lemma TimesOrder(p: real, a: real, b: real)
    requires p > 0.0
    ensures Times(p, a) <= Times(p, b) <==> a <= b
    ensures Times(p, a) < Times(p, b) <==> a < b
  {
    assert a > b ==> p * (a - b) > 0.0;
    assert b > a ==> p * (b - a) > 0.0;
  }

  /** The same amount is worth at least as much at the dearer price. */
  lemma TimesPrice(side: Side, p: real, q: real, x: real)
    requires !Before(side, q, p) && x >= 0.0
    ensures AsGood(side, Times(q, x), Times(p, x))
  {
    assert if side.ASK? then (q - p) * x >= 0.0 else (p - q) * x >= 0.0;
  }

  lemma TimesPriceStrict(side: Side, p: real, q: real, x: real)
    requires Before(side, p, q) && x > 0.0
    ensures if side.ASK? then Times(p, x) < Times(q, x) else Times(p, x) > Times(q, x)
  {
    assert if side.ASK? then (q - p) * x > 0.0 else (p - q) * x > 0.0;
  }

  lemma TimesScale(p: real, t: real, x: real)
    ensures Times(p, Times(t, x)) == Times(t, Times(p, x))
  {
  }

  lemma ProductNonNegative(a: real, b: real)
    requires a >= 0.0 && b >= 0.0
    ensures a * b >= 0.0
  {
  }

  lemma TimesFraction(t: real, x: real)
    requires 0.0 <= t <= 1.0 && x >= 0.0
    ensures 0.0 <= Times(t, x) <= x
  {
    ProductNonNegative(t, x);
    ProductNonNegative(1.0 - t, x);
    assert (1.0 - t) * x == x - t * x;
  }

  lemma TimesCommutes(a: real, b: real)
    ensures Times(a, b) == Times(b, a)
    ensures Times(a, 1.0) == a
  {
  }

  lemma Fraction(n: real, m: real) returns (t: real)
    requires 0.0 < n <= m
    ensures Times(t, m) == n && 0.0 < t <= 1.0
  {
    hide Times;
    hide Over;
    t := Over(n, m);
    TimesOver(m, n);
    TimesCommutes(m, t);
    TimesSign(m, t);
    TimesOrder(m, t, 1.0);
    TimesCommutes(m, 1.0);
  }
}
