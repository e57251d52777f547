/** Derivatives of real functions, as used to check hand-derived Jacobians.

    A function is tame if near 0 it changes at most in proportion to the distance; it has derivative d if
    its difference quotient, continued by d, is tame. That implies the limit (DerivativeIsLimit) and is closed under
    sums, products and reciprocals with nothing but bounds on products. A dual number carries a function
    along a line, its value at the start and its slope there, and every operation proves that the slope
    really is the derivative. */
module Derivative {
  import opened Reals

  function SumOf(f: real -> real, g: real -> real): real -> real {
    (h: real) => f(h) + g(h)
  }

  function ProductOf(f: real -> real, g: real -> real): real -> real {
    (h: real) => f(h) * g(h)
  }

  function ConstantOf(c: real): real -> real {
    (h: real) => c
  }

  /** 1/x; the value at 0 is of no interest. */
  function Inverse(x: real): real {
    if x == 0.0 then 0.0 else 1.0 / x
  }

  function InverseOf(g: real -> real): real -> real {
    (h: real) => Inverse(g(h))
  }

  ghost predicate InvertsAt(g: real -> real, i: real -> real, h: real) {
    g(h) != 0.0 ==> g(h) * i(h) == 1.0
  }

  ghost predicate Inverts(g: real -> real, i: real -> real) {
    forall h: real {:trigger InvertsAt(g, i, h)} :: InvertsAt(g, i, h)
  }

  lemma {:induction false} InverseInverts(g: real -> real)
    ensures Inverts(g, InverseOf(g))
  {
  }

  // ----- what a derivative is -----

  ghost predicate Change(a: real, a0: real, c: real, t: real) {
    Abs(a - a0) <= c * t
  }

  ghost predicate TameAt(f: real -> real, c: real, h: real) {
    Change(f(h), f(0.0), c, Abs(h))
  }

  ghost predicate TameWith(f: real -> real, c: real, delta: real) {
    c >= 0.0 && 0.0 < delta <= 1.0 && forall h: real {:trigger TameAt(f, c, h)} :: Abs(h) <= delta ==> TameAt(f, c, h)
  }

  /** Near 0 the function changes at most in proportion to the distance. */
  ghost predicate Tame(f: real -> real) {
    exists c: real, delta: real :: TameWith(f, c, delta)
  }

  ghost predicate QuotientAt(f: real -> real, quotient: real -> real, h: real) {
    f(h) == f(0.0) + h * quotient(h)
  }

  ghost predicate QuotientWith(f: real -> real, quotient: real -> real, delta: real) {
    && 0.0 < delta <= 1.0
    && forall h: real {:trigger QuotientAt(f, quotient, h)} :: Abs(h) <= delta ==> QuotientAt(f, quotient, h)
  }

  ghost predicate DerivativeVia(f: real -> real, d: real, quotient: real -> real) {
    quotient(0.0) == d && Tame(quotient) && exists delta: real :: QuotientWith(f, quotient, delta)
  }

  /** d is the derivative of f at 0: the difference quotient (f(h) - f(0)) / h, continued by d at 0,
      changes at most in proportion to h, so it tends to d. */
  ghost predicate HasDerivative(f: real -> real, d: real) {
    exists quotient: real -> real :: DerivativeVia(f, d, quotient)
  }

  // ----- arithmetic -----

  lemma {:induction false} TimesMonotone(a: real, b: real, c: real)
    requires a <= b && c >= 0.0
    ensures a * c <= b * c
  {
  }

  lemma {:induction false} SquareIsPositive(x: real)
    ensures x * x >= 0.0
  {
  }

  lemma {:induction false} AbsTimes(a: real, b: real)
    ensures Abs(a * b) == Abs(a) * Abs(b)
  {
  }

  lemma {:induction false} Distribute(x: real, y: real, t: real)
    ensures x * t + y * t == (x + y) * t
  {
  }

  lemma {:induction false} TimesBounded(a: real, m: real, b: real, n: real)
    requires Abs(a) <= m && Abs(b) <= n
    ensures Abs(a * b) <= m * n
  {
    AbsTimes(a, b);
    TimesMonotone(Abs(a), m, Abs(b));
    TimesMonotone(Abs(b), n, m);
  }

  /** A bounded factor times a change in proportion to t. */
  lemma {:induction false} ScaledChange(x: real, m: real, y: real, c: real, t: real, xy: real, mc: real)
    requires Abs(x) <= m && Abs(y) <= c * t && mc == m * c && xy == x * y
    ensures Abs(xy) <= mc * t
  {
    TimesBounded(x, m, y, c * t);
    assert m * (c * t) == mc * t;
  }

  lemma {:induction false} AddedChanges(p: real, x: real, q: real, y: real, r: real, t: real)
    requires Abs(p) <= x * t && Abs(q) <= y * t && p + q == r
    ensures Abs(r) <= (x + y) * t
  {
    Distribute(x, y, t);
  }

  lemma {:induction false} ChangeBounded(a: real, a0: real, c: real, t: real)
    requires 0.0 <= t <= 1.0 && c >= 0.0 && Abs(a - a0) <= c * t
    ensures Abs(a) <= Abs(a0) + c
  {
    TimesMonotone(t, 1.0, c);
    assert c * t <= c;
  }

  lemma {:induction false} FirstFactorChange(a: real, a0: real, ca: real, b: real, b0: real, cb: real, t: real,
                                             p: real, x: real)
    requires 0.0 <= t <= 1.0 && ca >= 0.0 && Abs(a - a0) <= ca * t && Abs(b - b0) <= cb * t
    requires p == a * (b - b0) && x == (Abs(a0) + ca) * cb
    ensures Abs(p) <= x * t
  {
    ChangeBounded(a, a0, ca, t);
    ScaledChange(a, Abs(a0) + ca, b - b0, cb, t, p, x);
  }

  lemma {:induction false} SecondFactorChange(a: real, a0: real, ca: real, b0: real, t: real, q: real, y: real)
    requires Abs(a - a0) <= ca * t && q == b0 * (a - a0) && y == Abs(b0) * ca
    ensures Abs(q) <= y * t
  {
    ScaledChange(b0, Abs(b0), a - a0, ca, t, q, y);
  }

  lemma {:induction false} BothFactorsChange(a: real, a0: real, b: real, b0: real, t: real,
                                             p: real, x: real, q: real, y: real)
    requires p == a * (b - b0) && Abs(p) <= x * t
    requires q == b0 * (a - a0) && Abs(q) <= y * t
    ensures Abs(a * b - a0 * b0) <= (x + y) * t
  {
    assert p + q == a * b - a0 * b0;
    AddedChanges(p, x, q, y, a * b - a0 * b0, t);
  }

  lemma {:induction false} ProductChange(a: real, a0: real, ca: real, b: real, b0: real, cb: real, t: real,
                                         x: real, y: real, ab: real, ab0: real)
    requires 0.0 <= t <= 1.0 && ca >= 0.0 && Change(a, a0, ca, t) && Change(b, b0, cb, t)
    requires x == (Abs(a0) + ca) * cb && y == Abs(b0) * ca && ab == a * b && ab0 == a0 * b0
    ensures Change(ab, ab0, x + y, t)
  {
    var p, q := a * (b - b0), b0 * (a - a0);
    FirstFactorChange(a, a0, ca, b, b0, cb, t, p, x);
    SecondFactorChange(a, a0, ca, b0, t, q, y);
    BothFactorsChange(a, a0, b, b0, t, p, x, q, y);
  }

  // ----- tame functions are closed under the operations -----

  lemma {:induction false} ConstantTame(c: real)
    ensures Tame(ConstantOf(c))
  {
    assert TameWith(ConstantOf(c), 0.0, 1.0);
  }

  lemma {:induction false} TameShrinks(f: real -> real, c: real, delta: real, smaller: real)
    requires TameWith(f, c, delta) && 0.0 < smaller <= delta
    ensures TameWith(f, c, smaller)
  {
  }

  lemma {:induction false} SumTameAt(f: real -> real, cf: real, g: real -> real, cg: real, h: real)
    requires TameAt(f, cf, h) && TameAt(g, cg, h)
    ensures TameAt(SumOf(f, g), cf + cg, h)
  {
    AddedChanges(f(h) - f(0.0), cf, g(h) - g(0.0), cg, SumOf(f, g)(h) - SumOf(f, g)(0.0), Abs(h));
  }

  lemma {:induction false} SumTame(f: real -> real, g: real -> real)
    requires Tame(f) && Tame(g)
    ensures Tame(SumOf(f, g))
  {
    var cf, tf :| TameWith(f, cf, tf);
    var cg, tg :| TameWith(g, cg, tg);
    forall h: real | Abs(h) <= Min(tf, tg) ensures TameAt(SumOf(f, g), cf + cg, h) {
      assert TameAt(f, cf, h) && TameAt(g, cg, h);
      SumTameAt(f, cf, g, cg, h);
    }
    assert TameWith(SumOf(f, g), cf + cg, Min(tf, tg));
  }

  lemma {:induction false} ProductTameAt(f: real -> real, cf: real, g: real -> real, cg: real, h: real, x: real, y: real)
    requires Abs(h) <= 1.0 && cf >= 0.0 && TameAt(f, cf, h) && TameAt(g, cg, h)
    requires x == (Abs(f(0.0)) + cf) * cg && y == Abs(g(0.0)) * cf
    ensures TameAt(ProductOf(f, g), x + y, h)
  {
    ProductChange(f(h), f(0.0), cf, g(h), g(0.0), cg, Abs(h), x, y, ProductOf(f, g)(h), ProductOf(f, g)(0.0));
  }

  lemma {:induction false} ProductTameWithin(f: real -> real, cf: real, g: real -> real, cg: real, delta: real,
                                             x: real, y: real)
    requires TameWith(f, cf, delta) && TameWith(g, cg, delta)
    requires x == (Abs(f(0.0)) + cf) * cg && y == Abs(g(0.0)) * cf && x + y >= 0.0
    ensures TameWith(ProductOf(f, g), x + y, delta)
  {
    forall h: real | Abs(h) <= delta ensures TameAt(ProductOf(f, g), x + y, h) {
      assert TameAt(f, cf, h) && TameAt(g, cg, h);
      ProductTameAt(f, cf, g, cg, h, x, y);
    }
  }

  lemma {:induction false} PositiveRate(f0: real, cf: real, g0: real, cg: real) returns (x: real, y: real)
    requires cf >= 0.0 && cg >= 0.0
    ensures x == (Abs(f0) + cf) * cg && y == Abs(g0) * cf && x + y >= 0.0
  {
    x, y := (Abs(f0) + cf) * cg, Abs(g0) * cf;
    TimesMonotone(0.0, Abs(f0) + cf, cg);
    TimesMonotone(0.0, Abs(g0), cf);
  }

  lemma {:induction false} ProductTame(f: real -> real, g: real -> real)
    requires Tame(f) && Tame(g)
    ensures Tame(ProductOf(f, g))
  {
    var cf, tf :| TameWith(f, cf, tf);
    var cg, tg :| TameWith(g, cg, tg);
    TameShrinks(f, cf, tf, Min(tf, tg));
    TameShrinks(g, cg, tg, Min(tf, tg));
    var x, y := PositiveRate(f(0.0), cf, g(0.0), cg);
    ProductTameWithin(f, cf, g, cg, Min(tf, tg), x, y);
  }

  /** Where a tame divisor keeps at least half its size. */
  function InverseRange(g0: real, c: real): (t: real)
    requires g0 != 0.0 && c >= 0.0
    ensures t > 0.0 && (c + 1.0) * t == Abs(g0) / 2.0
  {
    (Abs(g0) / 2.0) / (c + 1.0)
  }

  lemma {:induction false} DivisorStays(g: real, g0: real, c: real, t: real)
    requires g0 != 0.0 && c >= 0.0 && Change(g, g0, c, t) && 0.0 <= t <= InverseRange(g0, c)
    ensures Abs(g) >= Abs(g0) / 2.0
  {
    TimesMonotone(t, InverseRange(g0, c), c + 1.0);
    assert c * t + t <= Abs(g0) / 2.0;
  }

  lemma {:induction false} InverseBounded(g: real, g0: real, i: real, i0: real)
    requires Abs(g) >= Abs(g0) / 2.0 && g * i == 1.0 && g0 * i0 == 1.0
    ensures Abs(i) <= 2.0 * Abs(i0)
  {
    AbsTimes(g, i);
    AbsTimes(g0, i0);
    TimesMonotone(Abs(g0) / 2.0, Abs(g), Abs(i));
    CancelFactor(Abs(g0), Abs(i), Abs(i0));
  }

  lemma {:induction false} CancelFactor(g: real, i: real, i0: real)
    requires g >= 0.0 && i0 >= 0.0 && (g / 2.0) * i <= 1.0 && g * i0 == 1.0
    ensures i <= 2.0 * i0
  {
    TimesMonotone((g / 2.0) * i, 1.0, i0);
    assert ((g / 2.0) * i) * i0 == (i / 2.0) * (g * i0);
  }

  lemma {:induction false} InversesBounded(g: real, g0: real, i: real, i0: real, ii: real, m: real)
    requires Abs(g) >= Abs(g0) / 2.0 && g * i == 1.0 && g0 * i0 == 1.0
    requires ii == i * i0 && m == 2.0 * Abs(i0) * Abs(i0)
    ensures Abs(ii) <= m
  {
    InverseBounded(g, g0, i, i0);
    TimesBounded(i, 2.0 * Abs(i0), i0, Abs(i0));
  }

  lemma {:induction false} InverseDifference(g: real, g0: real, i: real, i0: real)
    requires g * i == 1.0 && g0 * i0 == 1.0
    ensures i - i0 == (i * i0) * (g0 - g)
  {
    assert (i * i0) * (g0 - g) == i * (g0 * i0) - i0 * (g * i);
  }

  lemma {:induction false} InverseChange(g: real, g0: real, c: real, t: real, i: real, i0: real, m: real, rate: real)
    requires Change(g, g0, c, t) && Abs(g) >= Abs(g0) / 2.0 && g * i == 1.0 && g0 * i0 == 1.0
    requires m == 2.0 * Abs(i0) * Abs(i0) && rate == m * c
    ensures Change(i, i0, rate, t)
  {
    var ii := i * i0;
    InversesBounded(g, g0, i, i0, ii, m);
    InverseDifference(g, g0, i, i0);
    ScaledChange(ii, m, g0 - g, c, t, i - i0, rate);
  }

  lemma {:induction false} InverseTameAt(g: real -> real, i: real -> real, c: real, h: real, m: real, rate: real)
    requires g(0.0) != 0.0 && g(h) != 0.0 && Abs(g(h)) >= Abs(g(0.0)) / 2.0 && TameAt(g, c, h)
    requires InvertsAt(g, i, h) && InvertsAt(g, i, 0.0)
    requires m == 2.0 * Abs(i(0.0)) * Abs(i(0.0)) && rate == m * c
    ensures TameAt(i, rate, h)
  {
    InverseChange(g(h), g(0.0), c, Abs(h), i(h), i(0.0), m, rate);
  }

  lemma {:induction false} DivisorStaysAt(g: real -> real, c: real, h: real)
    requires g(0.0) != 0.0 && c >= 0.0 && TameAt(g, c, h) && Abs(h) <= InverseRange(g(0.0), c)
    ensures g(h) != 0.0 && Abs(g(h)) >= Abs(g(0.0)) / 2.0
  {
    DivisorStays(g(h), g(0.0), c, Abs(h));
  }

  ghost predicate NonZeroAt(g: real -> real, h: real) {
    g(h) != 0.0
  }

  ghost predicate NonZeroWithin(g: real -> real, delta: real) {
    0.0 < delta <= 1.0 && forall h: real {:trigger NonZeroAt(g, h)} :: Abs(h) <= delta ==> NonZeroAt(g, h)
  }

  lemma {:induction false} InverseTameWithin(g: real -> real, i: real -> real, c: real, delta: real, m: real, rate: real)
    requires TameWith(g, c, delta) && g(0.0) != 0.0 && Inverts(g, i) && delta <= InverseRange(g(0.0), c)
    requires m == 2.0 * Abs(i(0.0)) * Abs(i(0.0)) && rate == m * c && rate >= 0.0
    ensures TameWith(i, rate, delta) && NonZeroWithin(g, delta)
  {
    assert InvertsAt(g, i, 0.0);
    forall h: real | Abs(h) <= delta ensures NonZeroAt(g, h) && TameAt(i, rate, h) {
      assert TameAt(g, c, h) && InvertsAt(g, i, h);
      DivisorStaysAt(g, c, h);
      InverseTameAt(g, i, c, h, m, rate);
    }
  }

  lemma {:induction false} InverseRate(i0: real, c: real) returns (m: real, rate: real)
    requires c >= 0.0
    ensures m == 2.0 * Abs(i0) * Abs(i0) && rate == m * c && rate >= 0.0
  {
    m := 2.0 * Abs(i0) * Abs(i0);
    rate := m * c;
    TimesMonotone(0.0, 2.0 * Abs(i0), Abs(i0));
    TimesMonotone(0.0, m, c);
  }

  lemma {:induction false} InverseTame(g: real -> real, i: real -> real) returns (delta: real)
    requires Tame(g) && g(0.0) != 0.0 && Inverts(g, i)
    ensures Tame(i) && NonZeroWithin(g, delta)
  {
    var c, t :| TameWith(g, c, t);
    var m, rate := InverseRate(i(0.0), c);
    delta := Min(t, InverseRange(g(0.0), c));
    TameShrinks(g, c, t, delta);
    InverseTameWithin(g, i, c, delta, m, rate);
  }

  lemma {:induction false} DifferentiableTameAt(f: real -> real, q: real -> real, c: real, h: real)
    requires Abs(h) <= 1.0 && c >= 0.0 && QuotientAt(f, q, h) && TameAt(q, c, h)
    ensures TameAt(f, Abs(q(0.0)) + c, h)
  {
    ChangeBounded(q(h), q(0.0), c, Abs(h));
    TimesBounded(h, Abs(h), q(h), Abs(q(0.0)) + c);
  }

  lemma {:induction false} DifferentiableIsTame(f: real -> real, d: real)
    requires HasDerivative(f, d)
    ensures Tame(f)
  {
    var q: real -> real :| DerivativeVia(f, d, q);
    var c, t :| TameWith(q, c, t);
    var s :| QuotientWith(f, q, s);
    forall h: real | Abs(h) <= Min(s, t) ensures TameAt(f, Abs(q(0.0)) + c, h) {
      assert QuotientAt(f, q, h) && TameAt(q, c, h);
      DifferentiableTameAt(f, q, c, h);
    }
    assert TameWith(f, Abs(q(0.0)) + c, Min(s, t));
  }

  // ----- the rules -----

  lemma {:induction false} SumQuotientAt(f: real -> real, p: real -> real, g: real -> real, q: real -> real, h: real)
    requires QuotientAt(f, p, h) && QuotientAt(g, q, h)
    ensures QuotientAt(SumOf(f, g), SumOf(p, q), h)
  {
  }

  lemma {:induction false} SumQuotient(f: real -> real, p: real -> real, g: real -> real, q: real -> real, delta: real)
    requires QuotientWith(f, p, delta) && QuotientWith(g, q, delta)
    ensures QuotientWith(SumOf(f, g), SumOf(p, q), delta)
  {
    forall h: real | Abs(h) <= delta ensures QuotientAt(SumOf(f, g), SumOf(p, q), h) {
      assert QuotientAt(f, p, h) && QuotientAt(g, q, h);
      SumQuotientAt(f, p, g, q, h);
    }
  }

  lemma {:induction false} QuotientShrinks(f: real -> real, q: real -> real, delta: real, smaller: real)
    requires QuotientWith(f, q, delta) && 0.0 < smaller <= delta
    ensures QuotientWith(f, q, smaller)
  {
  }

  lemma {:induction false} Sum(f: real -> real, df: real, g: real -> real, dg: real)
    requires HasDerivative(f, df) && HasDerivative(g, dg)
    ensures HasDerivative(SumOf(f, g), df + dg)
  {
    var p: real -> real :| DerivativeVia(f, df, p);
    var q: real -> real :| DerivativeVia(g, dg, q);
    var s :| QuotientWith(f, p, s);
    var t :| QuotientWith(g, q, t);
    QuotientShrinks(f, p, s, Min(s, t));
    QuotientShrinks(g, q, t, Min(s, t));
    SumTame(p, q);
    SumQuotient(f, p, g, q, Min(s, t));
    assert DerivativeVia(SumOf(f, g), df + dg, SumOf(p, q));
  }

  function ProductQuotientOf(f0: real, p: real -> real, g: real -> real, q: real -> real): real -> real {
    SumOf(ProductOf(p, g), ProductOf(ConstantOf(f0), q))
  }

  lemma {:induction false} ProductParts(f: real, f0: real, p: real, g: real, g0: real, q: real, h: real,
                                        fg: real, r: real)
    requires f == f0 + h * p && g == g0 + h * q && fg == f * g && r == p * g + f0 * q
    ensures fg == f0 * g0 + h * r
  {
    assert f * g == f0 * g + (h * p) * g;
    assert f0 * g == f0 * g0 + f0 * (h * q);
  }

  lemma {:induction false} ProductQuotientAt(f: real -> real, p: real -> real, g: real -> real, q: real -> real, h: real)
    requires QuotientAt(f, p, h) && QuotientAt(g, q, h)
    ensures QuotientAt(ProductOf(f, g), ProductQuotientOf(f(0.0), p, g, q), h)
  {
    ProductParts(f(h), f(0.0), p(h), g(h), g(0.0), q(h), h, ProductOf(f, g)(h), ProductQuotientOf(f(0.0), p, g, q)(h));
  }

  lemma {:induction false} ProductQuotient(f: real -> real, p: real -> real, g: real -> real, q: real -> real, delta: real)
    requires QuotientWith(f, p, delta) && QuotientWith(g, q, delta)
    ensures QuotientWith(ProductOf(f, g), ProductQuotientOf(f(0.0), p, g, q), delta)
  {
    forall h: real | Abs(h) <= delta ensures QuotientAt(ProductOf(f, g), ProductQuotientOf(f(0.0), p, g, q), h) {
      assert QuotientAt(f, p, h) && QuotientAt(g, q, h);
      ProductQuotientAt(f, p, g, q, h);
    }
  }

  lemma {:induction false} ProductQuotientTame(f0: real, p: real -> real, g: real -> real, q: real -> real)
    requires Tame(p) && Tame(g) && Tame(q)
    ensures Tame(ProductQuotientOf(f0, p, g, q))
  {
    ConstantTame(f0);
    ProductTame(p, g);
    ProductTame(ConstantOf(f0), q);
    SumTame(ProductOf(p, g), ProductOf(ConstantOf(f0), q));
  }

  lemma {:induction false} ProductSlope(p: real, df: real, g: real, g0: real, f0: real, q: real, dg: real, d: real)
    requires p == df && g == g0 && q == dg && d == df * g0 + f0 * dg
    ensures p * g + f0 * q == d
  {
  }

  lemma {:induction false} ProductQuotientStart(f0: real, p: real -> real, g: real -> real, q: real -> real,
                                                df: real, g0: real, dg: real, d: real)
    requires p(0.0) == df && g(0.0) == g0 && q(0.0) == dg && d == df * g0 + f0 * dg
    ensures ProductQuotientOf(f0, p, g, q)(0.0) == d
  {
    ProductSlope(p(0.0), df, g(0.0), g0, f0, q(0.0), dg, d);
  }

  lemma {:induction false} Product(f: real -> real, df: real, f0: real, g: real -> real, dg: real, g0: real, d: real)
    requires HasDerivative(f, df) && HasDerivative(g, dg)
    requires f(0.0) == f0 && g(0.0) == g0 && d == df * g0 + f0 * dg
    ensures HasDerivative(ProductOf(f, g), d)
  {
    var p: real -> real :| DerivativeVia(f, df, p);
    var q: real -> real :| DerivativeVia(g, dg, q);
    var s :| QuotientWith(f, p, s);
    var t :| QuotientWith(g, q, t);
    QuotientShrinks(f, p, s, Min(s, t));
    QuotientShrinks(g, q, t, Min(s, t));
    DifferentiableIsTame(g, dg);
    ProductQuotientTame(f0, p, g, q);
    ProductQuotient(f, p, g, q, Min(s, t));
    ProductQuotientStart(f0, p, g, q, df, g0, dg, d);
    assert DerivativeVia(ProductOf(f, g), d, ProductQuotientOf(f0, p, g, q));
  }

  function InverseQuotientOf(q: real -> real, i: real -> real, i0: real): real -> real {
    ProductOf(ProductOf(q, i), ConstantOf(-i0))
  }

  lemma {:induction false} InverseParts(g: real, g0: real, q: real, h: real, i: real, i0: real, r: real)
    requires g == g0 + h * q && g * i == 1.0 && g0 * i0 == 1.0 && r == (q * i) * (-i0)
    ensures i == i0 + h * r
  {
    InverseDifference(g, g0, i, i0);
    assert (i * i0) * (g0 - g) == h * ((q * i) * (-i0));
  }

  lemma {:induction false} InverseQuotientAt(g: real -> real, i: real -> real, q: real -> real, h: real)
    requires QuotientAt(g, q, h) && NonZeroAt(g, h) && NonZeroAt(g, 0.0)
    requires InvertsAt(g, i, h) && InvertsAt(g, i, 0.0)
    ensures QuotientAt(i, InverseQuotientOf(q, i, i(0.0)), h)
  {
    InverseParts(g(h), g(0.0), q(h), h, i(h), i(0.0), InverseQuotientOf(q, i, i(0.0))(h));
  }

  lemma {:induction false} InverseQuotient(g: real -> real, i: real -> real, q: real -> real, delta: real)
    requires QuotientWith(g, q, delta) && NonZeroWithin(g, delta) && Inverts(g, i)
    ensures QuotientWith(i, InverseQuotientOf(q, i, i(0.0)), delta)
  {
    assert NonZeroAt(g, 0.0) && InvertsAt(g, i, 0.0);
    forall h: real | Abs(h) <= delta ensures QuotientAt(i, InverseQuotientOf(q, i, i(0.0)), h) {
      assert QuotientAt(g, q, h) && NonZeroAt(g, h) && InvertsAt(g, i, h);
      InverseQuotientAt(g, i, q, h);
    }
  }

  lemma {:induction false} InverseQuotientTame(q: real -> real, i: real -> real, i0: real)
    requires Tame(q) && Tame(i)
    ensures Tame(InverseQuotientOf(q, i, i0))
  {
    ConstantTame(-i0);
    ProductTame(q, i);
    ProductTame(ProductOf(q, i), ConstantOf(-i0));
  }

  lemma {:induction false} Reciprocal(g: real -> real, dg: real, i: real -> real, i0: real, d: real)
    requires HasDerivative(g, dg) && g(0.0) != 0.0 && Inverts(g, i) && i(0.0) == i0 && d == (dg * i0) * (-i0)
    ensures HasDerivative(i, d)
  {
    var q: real -> real :| DerivativeVia(g, dg, q);
    var t :| QuotientWith(g, q, t);
    DifferentiableIsTame(g, dg);
    var s := InverseTame(g, i);
    QuotientShrinks(g, q, t, Min(s, t));
    InverseQuotientTame(q, i, i0);
    InverseQuotient(g, i, q, Min(s, t));
    assert DerivativeVia(i, d, InverseQuotientOf(q, i, i0));
  }

  // ----- one derivative at most -----

  lemma {:induction false} SameQuotient(h: real, p: real, q: real)
    requires h > 0.0 && h * p == h * q
    ensures p == q
  {
    assert h * (p - q) == 0.0;
  }

  lemma {:induction false} SlopesClose(f: real -> real, p: real -> real, q: real -> real, cp: real, cq: real, h: real)
    requires h > 0.0 && QuotientAt(f, p, h) && QuotientAt(f, q, h) && TameAt(p, cp, h) && TameAt(q, cq, h)
    ensures Abs(p(0.0) - q(0.0)) <= (cp + cq) * h
  {
    SlopesCloseAt(f(h), f(0.0), p(h), p(0.0), cp, q(h), q(0.0), cq, h);
  }

  lemma {:induction false} SlopesCloseAt(fh: real, f0: real, ph: real, p0: real, cp: real, qh: real, q0: real, cq: real, h: real)
    requires h > 0.0 && fh == f0 + h * ph && fh == f0 + h * qh
    requires Abs(ph - p0) <= cp * h && Abs(qh - q0) <= cq * h
    ensures Abs(p0 - q0) <= (cp + cq) * h
  {
    SameQuotient(h, ph, qh);
    BothClose(ph, p0, cp, q0, cq, h);
  }

  /** Two values close to a third are close to each other. */
  lemma {:induction false} BothClose(at: real, p0: real, cp: real, q0: real, cq: real, h: real)
    requires Abs(at - p0) <= cp * h && Abs(at - q0) <= cq * h
    ensures Abs(p0 - q0) <= (cp + cq) * h
  {
    AddedChanges(p0 - at, cp, at - q0, cq, p0 - q0, h);
  }

  /** Some h small enough for a range and with c h below a gap. */
  lemma {:induction false} SmallBelow(delta: real, c: real, gap: real) returns (h: real)
    requires delta > 0.0 && c >= 0.0 && gap > 0.0
    ensures 0.0 < h <= delta && c * h < gap
  {
    var k := gap / (c + 1.0);
    assert k * (c + 1.0) == gap;
    assert k > 0.0 && k * c < gap;
    h := Min(delta, k);
    TimesMonotone(h, k, c);
  }

  lemma {:induction false} SlopesEqual(f: real -> real, p: real -> real, q: real -> real, cp: real, cq: real, delta: real)
    requires QuotientWith(f, p, delta) && QuotientWith(f, q, delta)
    requires TameWith(p, cp, delta) && TameWith(q, cq, delta)
    ensures p(0.0) == q(0.0)
  {
    if p(0.0) != q(0.0) {
      var h := SmallBelow(delta, cp + cq, Abs(p(0.0) - q(0.0)));
      assert QuotientAt(f, p, h) && QuotientAt(f, q, h) && TameAt(p, cp, h) && TameAt(q, cq, h);
      SlopesClose(f, p, q, cp, cq, h);
      assert false;
    }
  }

  // ----- it is the limit -----

  ghost predicate NearLimit(f: real -> real, d: real, eps: real, h: real) {
    h != 0.0 ==> Abs((f(h) - f(0.0)) / h - d) < eps
  }

  ghost predicate NearWithin(f: real -> real, d: real, eps: real, delta: real) {
    delta > 0.0 && forall h: real {:trigger NearLimit(f, d, eps, h)} :: Abs(h) <= delta ==> NearLimit(f, d, eps, h)
  }

  lemma {:induction false} NearShrinks(f: real -> real, d: real, eps: real, delta: real, smaller: real)
    requires NearWithin(f, d, eps, delta) && 0.0 < smaller <= delta
    ensures NearWithin(f, d, eps, smaller)
  {
  }

  lemma {:induction false} QuotientIsSlope(f: real -> real, q: real -> real, h: real)
    requires h != 0.0 && QuotientAt(f, q, h)
    ensures (f(h) - f(0.0)) / h == q(h)
  {
    assert (h * q(h)) / h == q(h);
  }

  lemma {:induction false} NearAt(f: real -> real, q: real -> real, c: real, delta: real, eps: real, h: real)
    requires QuotientAt(f, q, h) && TameAt(q, c, h) && Abs(h) <= delta && c >= 0.0 && c * delta < eps
    ensures NearLimit(f, q(0.0), eps, h)
  {
    if h != 0.0 {
      QuotientIsSlope(f, q, h);
      TimesMonotone(Abs(h), delta, c);
    }
  }

  /** A derivative in the sense used here is the limit of the difference quotient. */
  lemma {:induction false} DerivativeIsLimit(f: real -> real, d: real, eps: real)
    requires HasDerivative(f, d) && eps > 0.0
    ensures exists delta: real :: NearWithin(f, d, eps, delta)
  {
    var q: real -> real :| DerivativeVia(f, d, q);
    var c, t :| TameWith(q, c, t);
    var s :| QuotientWith(f, q, s);
    var delta := SmallBelow(Min(s, t), c, eps);
    forall h: real | Abs(h) <= delta ensures NearLimit(f, d, eps, h) {
      assert QuotientAt(f, q, h) && TameAt(q, c, h);
      NearAt(f, q, c, delta, eps, h);
    }
    assert NearWithin(f, d, eps, delta);
  }

  lemma {:induction false} DerivativeIsUnique(f: real -> real, d: real, e: real)
    requires HasDerivative(f, d) && HasDerivative(f, e)
    ensures d == e
  {
    var p: real -> real :| DerivativeVia(f, d, p);
    var q: real -> real :| DerivativeVia(f, e, q);
    var cp, tp :| TameWith(p, cp, tp);
    var cq, tq :| TameWith(q, cq, tq);
    var sp :| QuotientWith(f, p, sp);
    var sq :| QuotientWith(f, q, sq);
    var delta := Min(Min(tp, tq), Min(sp, sq));
    TameShrinks(p, cp, tp, delta);
    TameShrinks(q, cq, tq, delta);
    QuotientShrinks(f, p, sp, delta);
    QuotientShrinks(f, q, sq, delta);
    SlopesEqual(f, p, q, cp, cq, delta);
  }

  // ----- dual numbers -----

  datatype Dual = Dual(along: real -> real, value: real, slope: real) {
    ghost predicate Sound() {
      along(0.0) == value && HasDerivative(along, slope)
    }
  }

  function Plus(a: Dual, b: Dual): Dual {
    Dual(SumOf(a.along, b.along), a.value + b.value, a.slope + b.slope)
  }

  function Times(a: Dual, b: Dual): Dual {
    Dual(ProductOf(a.along, b.along), a.value * b.value, a.slope * b.value + a.value * b.slope)
  }

  function Reciprocally(a: Dual): Dual {
    Dual(InverseOf(a.along), Inverse(a.value), (a.slope * Inverse(a.value)) * (-Inverse(a.value)))
  }

  function Constant(c: real): Dual {
    Dual(ConstantOf(c), c, 0.0)
  }

  /** The coordinate x, moving at speed d. */
  function Moving(x: real, d: real): Dual {
    Dual((h: real) => x + h * d, x, d)
  }

  lemma {:induction false} ConstantSound(c: real)
    ensures Constant(c).Sound()
  {
    ConstantTame(0.0);
    assert QuotientWith(ConstantOf(c), ConstantOf(0.0), 1.0);
    assert DerivativeVia(ConstantOf(c), 0.0, ConstantOf(0.0));
  }

  lemma {:induction false} MovingSound(x: real, d: real)
    ensures Moving(x, d).Sound()
  {
    ConstantTame(d);
    assert QuotientWith(Moving(x, d).along, ConstantOf(d), 1.0);
    assert DerivativeVia(Moving(x, d).along, d, ConstantOf(d));
  }

  lemma {:induction false} PlusSound(a: Dual, b: Dual)
    requires a.Sound() && b.Sound()
    ensures Plus(a, b).Sound()
  {
    Sum(a.along, a.slope, b.along, b.slope);
  }

  lemma {:induction false} TimesSound(a: Dual, b: Dual)
    requires a.Sound() && b.Sound()
    ensures Times(a, b).Sound()
  {
    Product(a.along, a.slope, a.value, b.along, b.slope, b.value, Times(a, b).slope);
  }

  lemma {:induction false} ReciprocalSound(a: Dual)
    requires a.Sound() && a.value != 0.0
    ensures Reciprocally(a).Sound()
  {
    InverseInverts(a.along);
    Reciprocal(a.along, a.slope, InverseOf(a.along), Inverse(a.value), Reciprocally(a).slope);
  }
}
