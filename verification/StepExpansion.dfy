/** What a lens model does over a finite step, beyond its linearisation: distort at the end of a step is
    distort at the start, plus the Jacobian applied to the step, plus a remainder given here as a formula.

    The radial factor enters through its divided differences. Between two squared radii r and s it changes
    by (s - r) times the first one, and the first one differs from the derivative at r by (s - r) times
    the second one. For the cubic of the Brown model both are polynomials; for the quotient of two cubics
    they are quotients over the same denominators, so nothing but the denominators' being different from
    zero is needed. The bound on the remainder multiplies bounds on the factors and adds them up. */
module StepExpansion {
  import opened Reals
  import opened Derivative
  import opened CameraModels
  import opened CameraProjection

  // ----- divided differences of the radial factor -----

  function CubicFirst(k1: real, k2: real, k3: real, r: real, s: real): real {
    k1 + k2 * (r + s) + k3 * (r * r + r * s + s * s)
  }

  function CubicSecond(k2: real, k3: real, r: real, s: real): real {
    k2 + k3 * (2.0 * r + s)
  }

  lemma {:induction false} CubicDifferences(k1: real, k2: real, k3: real, r: real, s: real, t: real)
    requires s == r + t
    ensures Cubic(k1, k2, k3, s) - Cubic(k1, k2, k3, r) == t * CubicFirst(k1, k2, k3, r, s)
    ensures CubicFirst(k1, k2, k3, r, s) - CubicSlope(k1, k2, k3, r) == t * CubicSecond(k2, k3, r, s)
  {
  }

  function QuotientFirst(n: real, d: real, e: real, n1: real, d1: real): real
    requires d * e != 0.0
  {
    (n1 * d - n * d1) / (d * e)
  }

  function QuotientSecond(n: real, d: real, e: real, rate: real, d1: real, n2: real, d2: real): real
    requires d * e != 0.0
  {
    (n2 * d - n * d2 - rate * (d * d1)) / (d * e)
  }

  lemma {:induction false} NonZeroProduct(x: real, y: real)
    requires x != 0.0 && y != 0.0
    ensures x * y != 0.0
  {
  }

  /** x / y is the only solution of z * y == x. */
  lemma {:induction false} QuotientIs(x: real, y: real, z: real)
    requires y != 0.0 && z * y == x
    ensures x / y == z
  {
  }

  lemma {:induction false} CommonDenominator(n: real, d: real, m: real, e: real)
    requires d != 0.0 && e != 0.0 && d * e != 0.0
    ensures m / e - n / d == (m * d - n * e) / (d * e)
  {
    var z := m / e - n / d;
    assert (m / e) * e == m && (n / d) * d == n;
    calc {
      z * (d * e);
      ((m / e) * e) * d - ((n / d) * d) * e;
      m * d - n * e;
    }
    QuotientIs(m * d - n * e, d * e, z);
  }

  lemma {:induction false} FactorOut(t: real, x: real, y: real)
    requires y != 0.0
    ensures (t * x) / y == t * (x / y)
  {
    assert (x / y) * y == x;
    assert (t * (x / y)) * y == t * ((x / y) * y);
    QuotientIs(t * x, y, t * (x / y));
  }

  lemma {:induction false} QuotientFirstIs(n: real, d: real, e: real, n1: real, d1: real, t: real)
    requires d != 0.0 && e != 0.0 && d * e != 0.0 && e == d + t * d1
    ensures (n + t * n1) / e - n / d == t * QuotientFirst(n, d, e, n1, d1)
  {
    CommonDenominator(n, d, n + t * n1, e);
    calc {
      (n + t * n1) * d - n * e;
      (n + t * n1) * d - n * (d + t * d1);
      t * (n1 * d - n * d1);
    }
    FactorOut(t, n1 * d - n * d1, d * e);
  }

  lemma {:induction false} SecondNumerator(n: real, d: real, e: real, a: real, b: real, rate: real, n1: real, d1: real,
                                           n2: real, d2: real, t: real, q: real)
    requires e == d + t * d1 && n1 == a + t * n2 && d1 == b + t * d2 && rate * (d * d) == a * d - n * b
    requires q == d * e
    ensures (n1 * d - n * d1) - rate * q == t * (n2 * d - n * d2 - rate * (d * d1))
  {
    calc {
      n1 * d - n * d1;
      (a + t * n2) * d - n * (b + t * d2);
      (a * d - n * b) + t * (n2 * d - n * d2);
    }
    calc {
      rate * q;
      rate * (d * (d + t * d1));
      rate * (d * d) + t * (rate * (d * d1));
    }
  }

  lemma {:induction false} QuotientSecondIs(n: real, d: real, e: real, a: real, b: real, rate: real, n1: real, d1: real,
                                            n2: real, d2: real, t: real)
    requires d * e != 0.0 && rate * (d * d) == a * d - n * b
    requires e == d + t * d1 && n1 == a + t * n2 && d1 == b + t * d2
    ensures QuotientFirst(n, d, e, n1, d1) - rate == t * QuotientSecond(n, d, e, rate, d1, n2, d2)
  {
    SecondNumerator(n, d, e, a, b, rate, n1, d1, n2, d2, t, d * e);
    OverCommon(n1 * d - n * d1, rate, d * e, t, n2 * d - n * d2 - rate * (d * d1));
  }

  lemma {:induction false} OverCommon(x: real, rate: real, q: real, t: real, z: real)
    requires q != 0.0 && x - rate * q == t * z
    ensures x / q - rate == t * (z / q)
  {
    FactorOut(t, z, q);
    LessWhole(x, rate, q);
  }

  lemma {:induction false} LessWhole(x: real, rate: real, q: real)
    requires q != 0.0
    ensures (x - rate * q) / q == x / q - rate
  {
  }

  lemma {:induction false} RateIs(n: real, d: real, a: real, b: real)
    requires d != 0.0
    ensures PolynomialRate(n, d, a, b) / 2.0 * (d * d) == a * d - n * b
  {
  }

  /** (k(s) - k(r)) / (s - r) for the radial factor k, continued where s and r meet. */
  function RadialFirst(m: Model, r: real, s: real): real
    requires Regular(m, r) && Regular(m, s)
  {
    match m
    case Pinhole => 0.0
    case Brown(k1, k2, k3, _, _) => CubicFirst(k1, k2, k3, r, s)
    case Polynomial(k1, k2, k3, k4, k5, k6, _, _) =>
      var d, e := Cubic(k4, k5, k6, r), Cubic(k4, k5, k6, s);
      NonZeroProduct(d, e);
      QuotientFirst(Cubic(k1, k2, k3, r), d, e, CubicFirst(k1, k2, k3, r, s), CubicFirst(k4, k5, k6, r, s))
  }

  /** The same once more: how RadialFirst departs from the derivative at r. */
  function RadialSecond(m: Model, r: real, s: real): real
    requires Regular(m, r) && Regular(m, s)
  {
    match m
    case Pinhole => 0.0
    case Brown(_, k2, k3, _, _) => CubicSecond(k2, k3, r, s)
    case Polynomial(k1, k2, k3, k4, k5, k6, _, _) =>
      var d, e := Cubic(k4, k5, k6, r), Cubic(k4, k5, k6, s);
      NonZeroProduct(d, e);
      QuotientSecond(Cubic(k1, k2, k3, r), d, e, RadialRate(m, r) / 2.0,
                     CubicFirst(k4, k5, k6, r, s), CubicSecond(k2, k3, r, s), CubicSecond(k5, k6, r, s))
  }

  lemma {:induction false} QuotientDifferences(n: real, d: real, m: real, e: real, a: real, b: real, n1: real, d1: real,
                                               n2: real, d2: real, t: real, rate: real)
    requires d != 0.0 && e != 0.0 && d * e != 0.0 && rate == PolynomialRate(n, d, a, b) / 2.0
    requires m - n == t * n1 && e - d == t * d1 && n1 - a == t * n2 && d1 - b == t * d2
    ensures Ratio(m, e) == Ratio(n, d) + t * QuotientFirst(n, d, e, n1, d1)
    ensures QuotientFirst(n, d, e, n1, d1) == rate + t * QuotientSecond(n, d, e, rate, d1, n2, d2)
  {
    RateIs(n, d, a, b);
    QuotientFirstIs(n, d, e, n1, d1, t);
    QuotientSecondIs(n, d, e, a, b, rate, n1, d1, n2, d2, t);
  }

  lemma {:induction false} BrownHalfRate(k1: real, k2: real, k3: real, r: real)
    ensures BrownRate(k1, k2, k3, r) / 2.0 == CubicSlope(k1, k2, k3, r)
  {
  }

  lemma {:induction false} BrownFirstIs(k1: real, k2: real, k3: real, r: real, s: real, t: real)
    requires s == r + t
    ensures BrownRadial(k1, k2, k3, s) == BrownRadial(k1, k2, k3, r) + t * CubicFirst(k1, k2, k3, r, s)
  {
    CubicDifferences(k1, k2, k3, r, s, t);
    BrownRadialIsCubic(k1, k2, k3, r);
    BrownRadialIsCubic(k1, k2, k3, s);
  }

  lemma {:induction false} BrownSecondIs(k1: real, k2: real, k3: real, r: real, s: real, t: real)
    requires s == r + t
    ensures CubicFirst(k1, k2, k3, r, s) == BrownRate(k1, k2, k3, r) / 2.0 + t * CubicSecond(k2, k3, r, s)
  {
    CubicDifferences(k1, k2, k3, r, s, t);
    BrownHalfRate(k1, k2, k3, r);
  }

  /** From r to s == r + t the radial factor changes by t * RadialFirst, and RadialFirst differs from the
      derivative at r, which is half the rate, by t * RadialSecond. */
  ghost predicate DifferencesHold(m: Model, r: real, s: real, t: real)
    requires Regular(m, r) && Regular(m, s)
  {
    FirstHolds(m, r, s, t) && SecondHolds(m, r, s, t)
  }

  ghost predicate FirstHolds(m: Model, r: real, s: real, t: real)
    requires Regular(m, r) && Regular(m, s)
  {
    RadialFactor(m, s) == RadialFactor(m, r) + t * RadialFirst(m, r, s)
  }

  ghost predicate SecondHolds(m: Model, r: real, s: real, t: real)
    requires Regular(m, r) && Regular(m, s)
  {
    RadialFirst(m, r, s) == RadialRate(m, r) / 2.0 + t * RadialSecond(m, r, s)
  }

  lemma {:induction false} PinholeStaysPut(m: Model, r: real, s: real, t: real)
    requires m.Pinhole?
    ensures DifferencesHold(m, r, s, t)
  {
  }

  lemma {:induction false} CubicModelFirst(m: Model, r: real, s: real, t: real)
    requires m.Brown? && s == r + t
    ensures FirstHolds(m, r, s, t)
  {
    BrownFirstIs(m.k1, m.k2, m.k3, r, s, t);
  }

  lemma {:induction false} CubicModelSecond(m: Model, r: real, s: real, t: real)
    requires m.Brown? && s == r + t
    ensures SecondHolds(m, r, s, t)
  {
    BrownSecondIs(m.k1, m.k2, m.k3, r, s, t);
  }

  lemma {:induction false} PolynomialDifferences(m: Model, r: real, s: real, t: real)
    requires m.Polynomial? && Regular(m, r) && Regular(m, s) && s == r + t
    ensures DifferencesHold(m, r, s, t)
  {
    CubicDifferences(m.k1, m.k2, m.k3, r, s, t);
    CubicDifferences(m.k4, m.k5, m.k6, r, s, t);
    var d, e := Cubic(m.k4, m.k5, m.k6, r), Cubic(m.k4, m.k5, m.k6, s);
    NonZeroProduct(d, e);
    QuotientDifferences(Cubic(m.k1, m.k2, m.k3, r), d, Cubic(m.k1, m.k2, m.k3, s), e,
                        CubicSlope(m.k1, m.k2, m.k3, r), CubicSlope(m.k4, m.k5, m.k6, r),
                        CubicFirst(m.k1, m.k2, m.k3, r, s), CubicFirst(m.k4, m.k5, m.k6, r, s),
                        CubicSecond(m.k2, m.k3, r, s), CubicSecond(m.k5, m.k6, r, s), t, RadialRate(m, r) / 2.0);
  }

  lemma {:induction false} RadialDifferences(m: Model, r: real, s: real, t: real)
    requires Regular(m, r) && Regular(m, s) && s == r + t
    ensures DifferencesHold(m, r, s, t)
  {
    match m
    case Pinhole => PinholeStaysPut(m, r, s, t);
    case Brown(_, _, _, _, _) =>
      CubicModelFirst(m, r, s, t);
      CubicModelSecond(m, r, s, t);
    case Polynomial(_, _, _, _, _, _, _, _) => PolynomialDifferences(m, r, s, t);
  }

  // ----- distort after a step, to second order -----

  /** How r2 changes over the step (du, dv). */
  function RadiusChange(u: real, v: real, du: real, dv: real): real {
    2.0 * (u * du + v * dv) + (du * du + dv * dv)
  }

  /** What a coordinate does beyond its linear change: every term has two factors of the step. */
  function RadialBeyond(u: real, du: real, t: real, w: real, c: real, first: real, second: real): real {
    u * InnerBeyond(c / 2.0, w, t, second) + CrossBeyond(du, t, first)
  }

  function InnerBeyond(half: real, w: real, t: real, second: real): real {
    half * w + t * t * second
  }

  function CrossBeyond(du: real, t: real, first: real): real {
    du * (t * first)
  }

  function TangentialBeyond(du: real, dv: real, a: real, b: real): real {
    a * (2.0 * (du * dv)) + b * ((du * du + dv * dv) + 2.0 * (du * du))
  }

  function Beyond(u: real, v: real, du: real, dv: real, c: real, first: real, second: real, a: real, b: real): real {
    RadialBeyond(u, du, RadiusChange(u, v, du, dv), du * du + dv * dv, c, first, second) + TangentialBeyond(du, dv, a, b)
  }

  lemma {:induction false} RadialExpands(u: real, du: real, half: real, w: real, t: real, k: real, ks: real, c: real,
                                         first: real, second: real)
    requires t == 2.0 * half + w && ks == k + t * first && first == c / 2.0 + t * second
    ensures (u + du) * ks == u * k + (du * k + c * (u * half)) + RadialBeyond(u, du, t, w, c, first, second)
  {
    calc {
      (u + du) * ks;
      u * (k + t * first) + du * (k + t * first);
      u * k + du * k + u * (t * first) + du * (t * first);
    }
    calc {
      t * first;
      t * (c / 2.0 + t * second);
      c / 2.0 * t + t * t * second;
      c / 2.0 * (2.0 * half + w) + t * t * second;
      c * half + (c / 2.0 * w + t * t * second);
    }
    assert u * (c * half + (c / 2.0 * w + t * t * second)) == c * (u * half) + u * (c / 2.0 * w + t * t * second);
  }

  lemma {:induction false} TangentialExpands(u: real, v: real, du: real, dv: real, a: real, b: real, r: real)
    requires r == u * u + v * v
    ensures 2.0 * a * ((u + du) * (v + dv)) + b * ((r + RadiusChange(u, v, du, dv)) + 2.0 * ((u + du) * (u + du))) ==
            (2.0 * a * (u * v) + b * (r + 2.0 * (u * u))) +
            ((2.0 * a * v + 6.0 * b * u) * du + (2.0 * a * u + 2.0 * b * v) * dv) + TangentialBeyond(du, dv, a, b)
  {
    calc {
      2.0 * a * ((u + du) * (v + dv));
      2.0 * a * (u * v) + 2.0 * a * v * du + 2.0 * a * u * dv + 2.0 * a * (du * dv);
    }
    calc {
      b * ((r + RadiusChange(u, v, du, dv)) + 2.0 * ((u + du) * (u + du)));
      b * (r + 2.0 * (u * u)) + 6.0 * b * u * du + 2.0 * b * v * dv + b * ((du * du + dv * dv) + 2.0 * (du * du));
    }
  }

  lemma {:induction false} RateParts(u: real, v: real, du: real, dv: real, half: real, k: real, c: real, a: real, b: real)
    requires half == u * du + v * dv
    ensures CoordinateRate(u, v, du, dv, k, c, a, b) ==
            (du * k + c * (u * half)) + ((2.0 * a * v + 6.0 * b * u) * du + (2.0 * a * u + 2.0 * b * v) * dv)
  {
    assert c * (u * half) == c * (u * u) * du + c * (u * v) * dv;
  }

  lemma {:induction false} CoordinateExpands(u: real, v: real, du: real, dv: real, k: real, ks: real, r: real, s: real,
                                             c: real, first: real, second: real, a: real, b: real)
    requires r == u * u + v * v && s == r + RadiusChange(u, v, du, dv)
    requires ks == k + RadiusChange(u, v, du, dv) * first && first == c / 2.0 + RadiusChange(u, v, du, dv) * second
    ensures Coordinate(u + du, v + dv, ks, s, a, b) ==
            Coordinate(u, v, k, r, a, b) + CoordinateRate(u, v, du, dv, k, c, a, b) +
            Beyond(u, v, du, dv, c, first, second, a, b)
  {
    var half := u * du + v * dv;
    RadialExpands(u, du, half, du * du + dv * dv, RadiusChange(u, v, du, dv), k, ks, c, first, second);
    TangentialExpands(u, v, du, dv, a, b, r);
    RateParts(u, v, du, dv, half, k, c, a, b);
  }

  /** The part of distort at xy that its linearisation at previous misses. */
  function Missed(m: Model, previous: Vec2, xy: Vec2): Vec2
    requires Defined(m, previous) && Defined(m, xy)
  {
    var r, s := SquaredNorm(previous), SquaredNorm(xy);
    var c, first, second := RadialRate(m, r), RadialFirst(m, r, s), RadialSecond(m, r, s);
    BothBeyond(previous, Minus(xy, previous), c, first, second, Tangential1(m), Tangential2(m))
  }

  function BothBeyond(xy: Vec2, step: Vec2, c: real, first: real, second: real, p1: real, p2: real): Vec2 {
    Vec2(Beyond(xy.x, xy.y, step.x, step.y, c, first, second, p1, p2),
         Beyond(xy.y, xy.x, step.y, step.x, c, first, second, p2, p1))
  }

  lemma {:induction false} RadiusChanges(x: real, y: real, dx: real, dy: real)
    ensures SquaredNorm(Vec2(x + dx, y + dy)) == SquaredNorm(Vec2(x, y)) + RadiusChange(x, y, dx, dy)
    ensures RadiusChange(y, x, dy, dx) == RadiusChange(x, y, dx, dy)
  {
  }

  lemma {:induction false} OneExpands(u: real, v: real, su: real, sv: real, du: real, dv: real, t: real, k: real, ks: real,
                                      r: real, s: real, c: real, first: real, second: real, a: real, b: real)
    requires su == u + du && sv == v + dv && t == RadiusChange(u, v, du, dv) && r == u * u + v * v && s == r + t
    requires ks == k + t * first && first == c / 2.0 + t * second
    ensures Coordinate(su, sv, ks, s, a, b) ==
            Coordinate(u, v, k, r, a, b) + CoordinateRate(u, v, du, dv, k, c, a, b) +
            Beyond(u, v, du, dv, c, first, second, a, b)
  {
    CoordinateExpands(u, v, du, dv, k, ks, r, s, c, first, second, a, b);
  }

  lemma {:induction false} LinearPart(m: Model, xy: Vec2, dir: Vec2, k: real, c: real)
    requires Defined(m, xy) && k == RadialFactor(m, SquaredNorm(xy)) && c == RadialRate(m, SquaredNorm(xy))
    ensures Apply(Jacobian(m, xy), dir) ==
            Vec2(CoordinateRate(xy.x, xy.y, dir.x, dir.y, k, c, Tangential1(m), Tangential2(m)),
                 CoordinateRate(xy.y, xy.x, dir.y, dir.x, k, c, Tangential2(m), Tangential1(m)))
  {
    JacobianCommon(m, xy, k, c);
    CommonRows(xy, dir, k, c, Tangential1(m), Tangential2(m));
  }

  /** Both coordinates, with everything the models differ in given as numbers. */
  lemma {:induction false} BothExpand(x: real, y: real, sx: real, sy: real, dx: real, dy: real, t: real, k: real, ks: real,
                                      r: real, s: real, c: real, first: real, second: real, p1: real, p2: real)
    requires sx == x + dx && sy == y + dy && t == RadiusChange(x, y, dx, dy) && r == x * x + y * y && s == r + t
    requires ks == k + t * first && first == c / 2.0 + t * second
    ensures Coordinate(sx, sy, ks, s, p1, p2) == Coordinate(x, y, k, r, p1, p2) +
            CoordinateRate(x, y, dx, dy, k, c, p1, p2) + Beyond(x, y, dx, dy, c, first, second, p1, p2)
    ensures Coordinate(sy, sx, ks, s, p2, p1) == Coordinate(y, x, k, r, p2, p1) +
            CoordinateRate(y, x, dy, dx, k, c, p2, p1) + Beyond(y, x, dy, dx, c, first, second, p2, p1)
  {
    RadiusChanges(x, y, dx, dy);
    OneExpands(x, y, sx, sy, dx, dy, t, k, ks, r, s, c, first, second, p1, p2);
    OneExpands(y, x, sy, sx, dy, dx, t, k, ks, r, s, c, first, second, p2, p1);
  }

  lemma {:induction false} RadiusOverStep(previous: Vec2, xy: Vec2)
    ensures SquaredNorm(xy) == SquaredNorm(previous) +
                               RadiusChange(previous.x, previous.y, xy.x - previous.x, xy.y - previous.y)
  {
    RadiusChanges(previous.x, previous.y, xy.x - previous.x, xy.y - previous.y);
  }

  lemma {:induction false} DistortExpands(m: Model, previous: Vec2, xy: Vec2)
    requires Defined(m, previous) && Defined(m, xy)
    ensures var linear, missed := Apply(Jacobian(m, previous), Minus(xy, previous)), Missed(m, previous, xy);
            && Distorted(m, xy).x == Distorted(m, previous).x + linear.x + missed.x
            && Distorted(m, xy).y == Distorted(m, previous).y + linear.y + missed.y
  {
    var r, s, step := SquaredNorm(previous), SquaredNorm(xy), Minus(xy, previous);
    var k, ks, c := RadialFactor(m, r), RadialFactor(m, s), RadialRate(m, r);
    var t := RadiusChange(previous.x, previous.y, step.x, step.y);
    RadiusOverStep(previous, xy);
    RadialDifferences(m, r, s, t);
    LinearPart(m, previous, step, k, c);
    DistortedIs(m, previous);
    DistortedIs(m, xy);
    BothExpand(previous.x, previous.y, xy.x, xy.y, step.x, step.y, t, k, ks, r, s, c,
               RadialFirst(m, r, s), RadialSecond(m, r, s), Tangential1(m), Tangential2(m));
  }

  // ----- how large that is -----

  /** A bound on Beyond: rho bounds the distance from the centre, p the step, and so (2 * rho + p) * p the
      change of r2. Every term has p twice. */
  function BeyondBound(rho: real, p: real, c: real, first: real, second: real, a: real, b: real): real {
    BoundAt(rho, p, c / 2.0, first, second, a, b)
  }

  function BoundAt(rho: real, p: real, half: real, first: real, second: real, a: real, b: real): real {
    var q, t := p * p, (2.0 * rho + p) * p;
    RadialBound(rho, p, q, t, half, first, second) + TangentialBound(a, b, q)
  }

  function RadialBound(rho: real, p: real, q: real, t: real, half: real, first: real, second: real): real {
    rho * InnerBound(half, q, t, second) + CrossBound(p, t, first)
  }

  function InnerBound(half: real, q: real, t: real, second: real): real {
    Abs(half) * q + (t * t) * Abs(second)
  }

  function CrossBound(p: real, t: real, first: real): real {
    p * (t * Abs(first))
  }

  function TangentialBound(a: real, b: real, q: real): real {
    Abs(a) * q + Abs(b) * (3.0 * q)
  }

  lemma {:induction false} PositiveProduct(x: real, y: real)
    requires x > 0.0 && y > 0.0
    ensures x * y > 0.0
  {
  }

  lemma {:induction false} StrictSquares(x: real, y: real)
    requires x > y >= 0.0
    ensures x * x > y * y
  {
    PositiveProduct(x - y, x + y);
    assert (x - y) * (x + y) == x * x - y * y;
  }

  lemma {:induction false} SquaresOrder(x: real, y: real)
    requires x * x <= y * y && y >= 0.0
    ensures Abs(x) <= y
  {
    assert Abs(x) * Abs(x) == x * x;
    if Abs(x) > y {
      StrictSquares(Abs(x), y);
    }
  }

  lemma {:induction false} PartBounded(x: real, y: real, n: real)
    requires x * x + y * y <= n * n && n >= 0.0
    ensures Abs(x) <= n && Abs(y) <= n
  {
    SquareIsPositive(x);
    SquareIsPositive(y);
    SquaresOrder(x, n);
    SquaresOrder(y, n);
  }

  lemma {:induction false} ScalarProductBounded(u: real, v: real, du: real, dv: real, rho: real, p: real)
    requires rho >= 0.0 && p >= 0.0 && u * u + v * v <= rho * rho && du * du + dv * dv <= p * p
    ensures Abs(u * du + v * dv) <= rho * p
  {
    SquareIsPositive(du);
    SquareIsPositive(dv);
    SquareIsPositive(rho);
    Cauchy(u, v, du, dv);
    TimesMonotone(u * u + v * v, rho * rho, du * du + dv * dv);
    TimesMonotone(du * du + dv * dv, p * p, rho * rho);
    assert (rho * rho) * (p * p) == (rho * p) * (rho * p);
    SquaresOrder(u * du + v * dv, rho * p);
  }

  lemma {:induction false} RadiusChangeBounded(u: real, v: real, du: real, dv: real, rho: real, p: real)
    requires rho >= 0.0 && p >= 0.0 && u * u + v * v <= rho * rho && du * du + dv * dv <= p * p
    ensures Abs(RadiusChange(u, v, du, dv)) <= (2.0 * rho + p) * p
  {
    SquareIsPositive(du);
    SquareIsPositive(dv);
    ScalarProductBounded(u, v, du, dv, rho, p);
    assert (2.0 * rho + p) * p == 2.0 * (rho * p) + p * p;
  }

  lemma {:induction false} OwnAndCross(u: real, rho: real, inner: real, innerBound: real, cross: real, crossBound: real,
                                       beyond: real, bound: real)
    requires Abs(u) <= rho && Abs(inner) <= innerBound && Abs(cross) <= crossBound
    requires beyond == u * inner + cross && bound == rho * innerBound + crossBound
    ensures Abs(beyond) <= bound
  {
    TimesBounded(u, rho, inner, innerBound);
  }

  lemma {:induction false} InnerBounded(half: real, w: real, q: real, t: real, tBound: real, second: real)
    requires 0.0 <= w <= q && Abs(t) <= tBound
    ensures Abs(InnerBeyond(half, w, t, second)) <= InnerBound(half, q, tBound, second)
  {
    TimesBounded(t, tBound, t, tBound);
    TimesBounded(t * t, tBound * tBound, second, Abs(second));
    OwnAndCross(half, Abs(half), w, q, t * t * second, (tBound * tBound) * Abs(second),
                InnerBeyond(half, w, t, second), InnerBound(half, q, tBound, second));
  }

  lemma {:induction false} CrossBounded(du: real, p: real, t: real, tBound: real, first: real)
    requires Abs(du) <= p && Abs(t) <= tBound
    ensures Abs(CrossBeyond(du, t, first)) <= CrossBound(p, tBound, first)
  {
    TimesBounded(t, tBound, first, Abs(first));
    TimesBounded(du, p, t * first, tBound * Abs(first));
  }

  lemma {:induction false} RadialBounded(u: real, du: real, t: real, w: real, c: real, first: real, second: real,
                                         rho: real, p: real, q: real, tBound: real)
    requires Abs(u) <= rho && Abs(du) <= p && 0.0 <= w <= q && Abs(t) <= tBound
    ensures Abs(RadialBeyond(u, du, t, w, c, first, second)) <= RadialBound(rho, p, q, tBound, c / 2.0, first, second)
  {
    InnerBounded(c / 2.0, w, q, t, tBound, second);
    CrossBounded(du, p, t, tBound, first);
    OwnAndCross(u, rho, InnerBeyond(c / 2.0, w, t, second), InnerBound(c / 2.0, q, tBound, second),
                CrossBeyond(du, t, first), CrossBound(p, tBound, first),
                RadialBeyond(u, du, t, w, c, first, second), RadialBound(rho, p, q, tBound, c / 2.0, first, second));
  }

  lemma {:induction false} TwiceProduct(x: real, y: real)
    ensures Abs(2.0 * (x * y)) <= x * x + y * y
  {
    SquareIsPositive(x + y);
    SquareIsPositive(x - y);
    assert (x + y) * (x + y) == x * x + 2.0 * (x * y) + y * y;
    assert (x - y) * (x - y) == x * x - 2.0 * (x * y) + y * y;
  }

  lemma {:induction false} SquaresBounded(du: real, dv: real, q: real)
    requires du * du + dv * dv <= q
    ensures Abs(2.0 * (du * dv)) <= q && Abs((du * du + dv * dv) + 2.0 * (du * du)) <= 3.0 * q
  {
    TwiceProduct(du, dv);
    SquareIsPositive(du);
    SquareIsPositive(dv);
  }

  lemma {:induction false} BothTerms(a: real, b: real, twice: real, squares: real, q: real, value: real, bound: real)
    requires Abs(twice) <= q && Abs(squares) <= 3.0 * q
    requires value == a * twice + b * squares && bound == Abs(a) * q + Abs(b) * (3.0 * q)
    ensures Abs(value) <= bound
  {
    TimesBounded(a, Abs(a), twice, q);
    TimesBounded(b, Abs(b), squares, 3.0 * q);
    SumBounded(a * twice, b * squares, Abs(a) * q, Abs(b) * (3.0 * q));
  }

  lemma {:induction false} SumBounded(x: real, y: real, xBound: real, yBound: real)
    requires Abs(x) <= xBound && Abs(y) <= yBound
    ensures Abs(x + y) <= xBound + yBound
  {
  }

  lemma {:induction false} TangentialBounded(du: real, dv: real, a: real, b: real, q: real)
    requires du * du + dv * dv <= q
    ensures Abs(TangentialBeyond(du, dv, a, b)) <= TangentialBound(a, b, q)
  {
    SquaresBounded(du, dv, q);
    BothTerms(a, b, 2.0 * (du * dv), (du * du + dv * dv) + 2.0 * (du * du), q, TangentialBeyond(du, dv, a, b),
              TangentialBound(a, b, q));
  }

  lemma {:induction false} StepInRange(u: real, v: real, du: real, dv: real, rho: real, p: real)
    requires rho >= 0.0 && p >= 0.0 && u * u + v * v <= rho * rho && du * du + dv * dv <= p * p
    ensures Abs(u) <= rho && Abs(du) <= p && 0.0 <= du * du + dv * dv
    ensures Abs(RadiusChange(u, v, du, dv)) <= (2.0 * rho + p) * p
  {
    SquareIsPositive(du);
    SquareIsPositive(dv);
    PartBounded(u, v, rho);
    PartBounded(du, dv, p);
    RadiusChangeBounded(u, v, du, dv, rho, p);
  }

  lemma {:induction false} BeyondBounded(u: real, v: real, du: real, dv: real, c: real, first: real, second: real,
                                         a: real, b: real, rho: real, p: real)
    requires rho >= 0.0 && p >= 0.0 && u * u + v * v <= rho * rho && du * du + dv * dv <= p * p
    ensures Abs(Beyond(u, v, du, dv, c, first, second, a, b)) <= BeyondBound(rho, p, c, first, second, a, b)
  {
    StepInRange(u, v, du, dv, rho, p);
    RadialBounded(u, du, RadiusChange(u, v, du, dv), du * du + dv * dv, c, first, second, rho, p, p * p, (2.0 * rho + p) * p);
    TangentialBounded(du, dv, a, b, p * p);
  }

  function BothBounds(rho: real, p: real, c: real, first: real, second: real, p1: real, p2: real): Vec2 {
    Vec2(BeyondBound(rho, p, c, first, second, p1, p2), BeyondBound(rho, p, c, first, second, p2, p1))
  }

  lemma {:induction false} BothBounded(xy: Vec2, step: Vec2, c: real, first: real, second: real, p1: real, p2: real,
                                       rho: real, p: real)
    requires rho >= 0.0 && p >= 0.0 && SquaredNorm(xy) <= rho * rho && SquaredNorm(step) <= p * p
    ensures var beyond, bound := BothBeyond(xy, step, c, first, second, p1, p2), BothBounds(rho, p, c, first, second, p1, p2);
            Abs(beyond.x) <= bound.x && Abs(beyond.y) <= bound.y
  {
    BeyondBounded(xy.x, xy.y, step.x, step.y, c, first, second, p1, p2, rho, p);
    BeyondBounded(xy.y, xy.x, step.y, step.x, c, first, second, p2, p1, rho, p);
  }

  // ----- bounds that hold everywhere on a lens -----

  lemma {:induction false} HornerBounded(x: real, xMax: real, r: real, q: real, y: real, value: real, max: real)
    requires Abs(x) <= xMax && 0.0 <= r <= q && value == x * r + y && max == xMax * q + Abs(y)
    ensures Abs(value) <= max
  {
    TimesBounded(x, xMax, r, q);
  }

  /** The cubic for squared radii up to q; its slope and its divided differences likewise. */
  function CubicMax(k1: real, k2: real, k3: real, q: real): real {
    1.0 + ((Abs(k3) * q + Abs(k2)) * q + Abs(k1)) * q
  }

  function SlopeMax(k1: real, k2: real, k3: real, q: real): real {
    (3.0 * Abs(k3) * q + 2.0 * Abs(k2)) * q + Abs(k1)
  }

  function FirstMax(k1: real, k2: real, k3: real, q: real): real {
    Abs(k1) + Abs(k2) * (2.0 * q) + Abs(k3) * (3.0 * (q * q))
  }

  function SecondMax(k2: real, k3: real, q: real): real {
    Abs(k2) + Abs(k3) * (3.0 * q)
  }

  lemma {:induction false} CubicStages(k1: real, k2: real, k3: real, r: real, q: real, u: real, uMax: real, v: real, vMax: real,
                                       c: real, cMax: real)
    requires 0.0 <= r <= q
    requires u == k3 * r + k2 && v == u * r + k1 && c == 1.0 + v * r
    requires uMax == Abs(k3) * q + Abs(k2) && vMax == uMax * q + Abs(k1) && cMax == 1.0 + vMax * q
    ensures Abs(c - 1.0) <= cMax - 1.0 && Abs(c) <= cMax
  {
    HornerBounded(k3, Abs(k3), r, q, k2, u, uMax);
    HornerBounded(u, uMax, r, q, k1, v, vMax);
    HornerBounded(v, vMax, r, q, 0.0, c - 1.0, cMax - 1.0);
  }

  lemma {:induction false} CubicBounded(k1: real, k2: real, k3: real, r: real, q: real)
    requires 0.0 <= r <= q
    ensures Abs(Cubic(k1, k2, k3, r) - 1.0) <= CubicMax(k1, k2, k3, q) - 1.0
    ensures Abs(Cubic(k1, k2, k3, r)) <= CubicMax(k1, k2, k3, q)
  {
    CubicStages(k1, k2, k3, r, q, k3 * r + k2, Abs(k3) * q + Abs(k2), (k3 * r + k2) * r + k1,
                (Abs(k3) * q + Abs(k2)) * q + Abs(k1), Cubic(k1, k2, k3, r), CubicMax(k1, k2, k3, q));
  }

  lemma {:induction false} SlopeStages(a: real, aMax: real, b: real, bMax: real, k1: real, r: real, q: real,
                                       u: real, uMax: real, v: real, vMax: real)
    requires 0.0 <= r <= q && Abs(a) == aMax && Abs(b) == bMax
    requires u == a * r + b && v == u * r + k1 && uMax == aMax * q + bMax && vMax == uMax * q + Abs(k1)
    ensures Abs(v) <= vMax
  {
    HornerBounded(a, aMax, r, q, b, u, uMax);
    HornerBounded(u, uMax, r, q, k1, v, vMax);
  }

  lemma {:induction false} SlopeBounded(k1: real, k2: real, k3: real, r: real, q: real)
    requires 0.0 <= r <= q
    ensures Abs(CubicSlope(k1, k2, k3, r)) <= SlopeMax(k1, k2, k3, q)
  {
    SlopeStages(3.0 * k3, 3.0 * Abs(k3), 2.0 * k2, 2.0 * Abs(k2), k1, r, q, 3.0 * k3 * r + 2.0 * k2,
                3.0 * Abs(k3) * q + 2.0 * Abs(k2), CubicSlope(k1, k2, k3, r), SlopeMax(k1, k2, k3, q));
  }

  lemma {:induction false} RadiiBounded(r: real, s: real, q: real)
    requires 0.0 <= r <= q && 0.0 <= s <= q
    ensures Abs(r + s) <= 2.0 * q && Abs(2.0 * r + s) <= 3.0 * q && Abs(r * r + r * s + s * s) <= 3.0 * (q * q)
  {
    TimesBounded(r, q, r, q);
    TimesBounded(r, q, s, q);
    TimesBounded(s, q, s, q);
  }

  lemma {:induction false} ThreeTerms(k1: real, k2: real, x: real, xMax: real, k3: real, y: real, yMax: real,
                                      value: real, max: real)
    requires Abs(x) <= xMax && Abs(y) <= yMax
    requires value == k1 + k2 * x + k3 * y && max == Abs(k1) + Abs(k2) * xMax + Abs(k3) * yMax
    ensures Abs(value) <= max
  {
    TimesBounded(k2, Abs(k2), x, xMax);
    TimesBounded(k3, Abs(k3), y, yMax);
  }

  lemma {:induction false} FirstBounded(k1: real, k2: real, k3: real, r: real, s: real, q: real)
    requires 0.0 <= r <= q && 0.0 <= s <= q
    ensures Abs(CubicFirst(k1, k2, k3, r, s)) <= FirstMax(k1, k2, k3, q)
  {
    RadiiBounded(r, s, q);
    ThreeTerms(k1, k2, r + s, 2.0 * q, k3, r * r + r * s + s * s, 3.0 * (q * q),
               CubicFirst(k1, k2, k3, r, s), FirstMax(k1, k2, k3, q));
  }

  lemma {:induction false} SecondBounded(k2: real, k3: real, r: real, s: real, q: real)
    requires 0.0 <= r <= q && 0.0 <= s <= q
    ensures Abs(CubicSecond(k2, k3, r, s)) <= SecondMax(k2, k3, q)
  {
    RadiiBounded(r, s, q);
    ThreeTerms(k2, k3, 2.0 * r + s, 3.0 * q, 0.0, 0.0, 0.0, CubicSecond(k2, k3, r, s), SecondMax(k2, k3, q));
  }

  lemma {:induction false} StrictlyScaled(x: real, y: real, z: real)
    requires x > y && z > 0.0
    ensures x * z > y * z
  {
    PositiveProduct(x - y, z);
    assert (x - y) * z == x * z - y * z;
  }

  /** z solves z * y == x, with x bounded above and y below. */
  lemma {:induction false} SolutionBounded(z: real, y: real, x: real, xMax: real, yMin: real, w: real)
    requires z * y == x && Abs(x) <= xMax && Abs(y) >= yMin > 0.0 && w * yMin == xMax
    ensures Abs(z) <= w
  {
    AbsTimes(z, y);
    TimesMonotone(yMin, Abs(y), Abs(z));
    if Abs(z) > w {
      StrictlyScaled(Abs(z), w, yMin);
    }
  }

  function OverTwice(x: real, low: real): real
    requires low > 0.0
  {
    x / low / low
  }

  lemma {:induction false} OverTwiceBounds(z: real, d: real, e: real, x: real, xMax: real, low: real)
    requires (z * d) * e == x && Abs(x) <= xMax && Abs(d) >= low > 0.0 && Abs(e) >= low
    ensures Abs(z) <= OverTwice(xMax, low)
  {
    SolutionBounded(z * d, e, x, xMax, low, xMax / low);
    SolutionBounded(z, d, z * d, xMax / low, low, OverTwice(xMax, low));
  }

  lemma {:induction false} CrossDifference(a: real, aMax: real, d: real, dMax: real, n: real, nMax: real, b: real, bMax: real)
    requires Abs(a) <= aMax && Abs(d) <= dMax && Abs(n) <= nMax && Abs(b) <= bMax
    ensures Abs(a * d - n * b) <= aMax * dMax + nMax * bMax
  {
    TimesBounded(a, aMax, d, dMax);
    TimesBounded(n, nMax, b, bMax);
  }

  lemma {:induction false} DifferenceBounded(x: real, xMax: real, y: real, yMax: real, z: real, zMax: real, value: real, max: real)
    requires Abs(x) <= xMax && Abs(y) <= yMax && Abs(z) <= zMax && value == x - y * z && max == xMax + yMax * zMax
    ensures Abs(value) <= max
  {
    TimesBounded(y, yMax, z, zMax);
  }

  /** The three radial quantities of a lens up to squared radius q: half the rate, and both differences. */
  datatype Radial = Radial(halfRate: real, first: real, second: real)

  function RationalMax(nMax: real, dMax: real, a: real, b: real, n1: real, d1: real, n2: real, d2: real, low: real): Radial
    requires low > 0.0
  {
    var rate := OverTwice(a * dMax + nMax * b, low);
    Radial(rate, OverTwice(n1 * dMax + nMax * d1, low), OverTwice(n2 * dMax + nMax * d2 + rate * (dMax * d1), low))
  }

  function RadialMax(m: Model, q: real, low: real): Radial
    requires low > 0.0
  {
    match m
    case Pinhole => Radial(0.0, 0.0, 0.0)
    case Brown(k1, k2, k3, _, _) => Radial(SlopeMax(k1, k2, k3, q), FirstMax(k1, k2, k3, q), SecondMax(k2, k3, q))
    case Polynomial(k1, k2, k3, k4, k5, k6, _, _) =>
      RationalMax(CubicMax(k1, k2, k3, q), CubicMax(k4, k5, k6, q), SlopeMax(k1, k2, k3, q), SlopeMax(k4, k5, k6, q),
                  FirstMax(k1, k2, k3, q), FirstMax(k4, k5, k6, q), SecondMax(k2, k3, q), SecondMax(k5, k6, q), low)
  }

  ghost predicate BoundedBy(m: Model, r: real, s: real, max: Radial)
    requires Regular(m, r) && Regular(m, s)
  {
    && Abs(RadialRate(m, r) / 2.0) <= max.halfRate
    && Abs(RadialFirst(m, r, s)) <= max.first
    && Abs(RadialSecond(m, r, s)) <= max.second
  }

  ghost predicate FarFromPole(m: Model, r: real, low: real) {
    m.Polynomial? ==> Abs(Cubic(m.k4, m.k5, m.k6, r)) >= low
  }

  lemma {:induction false} BrownBounded(m: Model, q: real, low: real, r: real, s: real)
    requires m.Brown? && low > 0.0 && 0.0 <= r <= q && 0.0 <= s <= q
    ensures BoundedBy(m, r, s, RadialMax(m, q, low))
  {
    BrownHalfRate(m.k1, m.k2, m.k3, r);
    SlopeBounded(m.k1, m.k2, m.k3, r, q);
    FirstBounded(m.k1, m.k2, m.k3, r, s, q);
    SecondBounded(m.k2, m.k3, r, s, q);
  }

  lemma {:induction false} RateBounded(n: real, nMax: real, d: real, dMax: real, a: real, aMax: real, b: real, bMax: real,
                                       low: real, rate: real)
    requires Abs(n) <= nMax && low <= Abs(d) <= dMax && Abs(a) <= aMax && Abs(b) <= bMax && low > 0.0
    requires (rate * d) * d == a * d - n * b
    ensures Abs(rate) <= OverTwice(aMax * dMax + nMax * bMax, low)
  {
    CrossDifference(a, aMax, d, dMax, n, nMax, b, bMax);
    OverTwiceBounds(rate, d, d, a * d - n * b, aMax * dMax + nMax * bMax, low);
  }

  lemma {:induction false} FirstQuotientBounded(n: real, nMax: real, d: real, e: real, dMax: real, n1: real, n1Max: real,
                                                d1: real, d1Max: real, low: real)
    requires Abs(n) <= nMax && low <= Abs(d) <= dMax && low <= Abs(e) && Abs(n1) <= n1Max && Abs(d1) <= d1Max
    requires low > 0.0 && d * e != 0.0
    ensures Abs(QuotientFirst(n, d, e, n1, d1)) <= OverTwice(n1Max * dMax + nMax * d1Max, low)
  {
    CrossDifference(n1, n1Max, d, dMax, n, nMax, d1, d1Max);
    QuotientBounded(n1 * d - n * d1, n1Max * dMax + nMax * d1Max, d, e, low, QuotientFirst(n, d, e, n1, d1));
  }

  lemma {:induction false} DivideTwice(x: real, d: real, e: real)
    requires d * e != 0.0
    ensures (x / (d * e)) * d * e == x
  {
    var z := x / (d * e);
    assert z * (d * e) == x;
    assert z * (d * e) == (z * d) * e;
  }

  lemma {:induction false} SecondNumeratorBounded(n: real, nMax: real, d: real, dMax: real, rate: real, rateMax: real,
                                                  d1: real, d1Max: real, n2: real, n2Max: real, d2: real, d2Max: real,
                                                  x: real, xMax: real)
    requires Abs(n) <= nMax && Abs(d) <= dMax && Abs(rate) <= rateMax
    requires Abs(d1) <= d1Max && Abs(n2) <= n2Max && Abs(d2) <= d2Max
    requires x == n2 * d - n * d2 - rate * (d * d1)
    requires xMax == n2Max * dMax + nMax * d2Max + rateMax * (dMax * d1Max)
    ensures Abs(x) <= xMax
  {
    CrossDifference(n2, n2Max, d, dMax, n, nMax, d2, d2Max);
    TimesBounded(d, dMax, d1, d1Max);
    DifferenceBounded(n2 * d - n * d2, n2Max * dMax + nMax * d2Max, rate, rateMax, d * d1, dMax * d1Max, x, xMax);
  }

  lemma {:induction false} QuotientBounded(x: real, xMax: real, d: real, e: real, low: real, z: real)
    requires Abs(x) <= xMax && low <= Abs(d) && low <= Abs(e) && low > 0.0 && d * e != 0.0 && z == x / (d * e)
    ensures Abs(z) <= OverTwice(xMax, low)
  {
    DivideTwice(x, d, e);
    OverTwiceBounds(z, d, e, x, xMax, low);
  }

  lemma {:induction false} SecondQuotientBounded(n: real, nMax: real, d: real, e: real, dMax: real, rate: real, rateMax: real,
                                                 d1: real, d1Max: real, n2: real, n2Max: real, d2: real, d2Max: real,
                                                 low: real, xMax: real, z: real)
    requires Abs(n) <= nMax && low <= Abs(d) <= dMax && low <= Abs(e) && Abs(rate) <= rateMax
    requires Abs(d1) <= d1Max && Abs(n2) <= n2Max && Abs(d2) <= d2Max && low > 0.0 && d * e != 0.0
    requires xMax == n2Max * dMax + nMax * d2Max + rateMax * (dMax * d1Max)
    requires z == QuotientSecond(n, d, e, rate, d1, n2, d2)
    ensures Abs(z) <= OverTwice(xMax, low)
  {
    var x := n2 * d - n * d2 - rate * (d * d1);
    SecondNumeratorBounded(n, nMax, d, dMax, rate, rateMax, d1, d1Max, n2, n2Max, d2, d2Max, x, xMax);
    QuotientBounded(x, xMax, d, e, low, z);
  }

  ghost predicate HalfRateOf(rate: real, n: real, d: real, a: real, b: real) {
    (rate * d) * d == a * d - n * b
  }

  lemma {:induction false} RationalBounded(n: real, nMax: real, d: real, e: real, dMax: real, a: real, aMax: real, b: real, bMax: real,
                                           n1: real, n1Max: real, d1: real, d1Max: real, n2: real, n2Max: real,
                                           d2: real, d2Max: real, low: real, rate: real, max: Radial)
    requires low <= Abs(d) <= dMax && low <= Abs(e) && Abs(n) <= nMax && low > 0.0 && d * e != 0.0
    requires Abs(a) <= aMax && Abs(b) <= bMax && Abs(n1) <= n1Max && Abs(d1) <= d1Max && Abs(n2) <= n2Max && Abs(d2) <= d2Max
    requires HalfRateOf(rate, n, d, a, b)
    requires max == RationalMax(nMax, dMax, aMax, bMax, n1Max, d1Max, n2Max, d2Max, low)
    ensures Abs(rate) <= max.halfRate && Abs(QuotientFirst(n, d, e, n1, d1)) <= max.first
    ensures Abs(QuotientSecond(n, d, e, rate, d1, n2, d2)) <= max.second
  {
    RateBounded(n, nMax, d, dMax, a, aMax, b, bMax, low, rate);
    FirstQuotientBounded(n, nMax, d, e, dMax, n1, n1Max, d1, d1Max, low);
    SecondQuotientBounded(n, nMax, d, e, dMax, rate, max.halfRate, d1, d1Max, n2, n2Max, d2, d2Max, low,
                          n2Max * dMax + nMax * d2Max + max.halfRate * (dMax * d1Max),
                          QuotientSecond(n, d, e, rate, d1, n2, d2));
  }

  ghost predicate CubicWithin(k1: real, k2: real, k3: real, r: real, s: real, q: real) {
    && Abs(Cubic(k1, k2, k3, r)) <= CubicMax(k1, k2, k3, q)
    && Abs(CubicSlope(k1, k2, k3, r)) <= SlopeMax(k1, k2, k3, q)
    && Abs(CubicFirst(k1, k2, k3, r, s)) <= FirstMax(k1, k2, k3, q)
    && Abs(CubicSecond(k2, k3, r, s)) <= SecondMax(k2, k3, q)
  }

  lemma {:induction false} CubicStaysWithin(k1: real, k2: real, k3: real, r: real, s: real, q: real)
    requires 0.0 <= r <= q && 0.0 <= s <= q
    ensures CubicWithin(k1, k2, k3, r, s, q)
  {
    CubicBounded(k1, k2, k3, r, q);
    SlopeBounded(k1, k2, k3, r, q);
    FirstBounded(k1, k2, k3, r, s, q);
    SecondBounded(k2, k3, r, s, q);
  }

  lemma {:induction false} HalfRateSolves(n: real, d: real, a: real, b: real, rate: real)
    requires d != 0.0 && rate == PolynomialRate(n, d, a, b) / 2.0
    ensures HalfRateOf(rate, n, d, a, b)
  {
    RateIs(n, d, a, b);
    assert rate * (d * d) == (rate * d) * d;
  }

  lemma {:induction false} PolynomialBounded(m: Model, q: real, low: real, r: real, s: real)
    requires m.Polynomial? && low > 0.0 && 0.0 <= r <= q && 0.0 <= s <= q
    requires FarFromPole(m, r, low) && FarFromPole(m, s, low)
    ensures BoundedBy(m, r, s, RadialMax(m, q, low))
  {
    CubicStaysWithin(m.k1, m.k2, m.k3, r, s, q);
    CubicStaysWithin(m.k4, m.k5, m.k6, r, s, q);
    var d, e := Cubic(m.k4, m.k5, m.k6, r), Cubic(m.k4, m.k5, m.k6, s);
    NonZeroProduct(d, e);
    HalfRateSolves(Cubic(m.k1, m.k2, m.k3, r), d, CubicSlope(m.k1, m.k2, m.k3, r), CubicSlope(m.k4, m.k5, m.k6, r),
                   RadialRate(m, r) / 2.0);
    RationalBounded(Cubic(m.k1, m.k2, m.k3, r), CubicMax(m.k1, m.k2, m.k3, q), d, e, CubicMax(m.k4, m.k5, m.k6, q),
                    CubicSlope(m.k1, m.k2, m.k3, r), SlopeMax(m.k1, m.k2, m.k3, q),
                    CubicSlope(m.k4, m.k5, m.k6, r), SlopeMax(m.k4, m.k5, m.k6, q),
                    CubicFirst(m.k1, m.k2, m.k3, r, s), FirstMax(m.k1, m.k2, m.k3, q),
                    CubicFirst(m.k4, m.k5, m.k6, r, s), FirstMax(m.k4, m.k5, m.k6, q),
                    CubicSecond(m.k2, m.k3, r, s), SecondMax(m.k2, m.k3, q),
                    CubicSecond(m.k5, m.k6, r, s), SecondMax(m.k5, m.k6, q), low, RadialRate(m, r) / 2.0, RadialMax(m, q, low));
  }

  lemma {:induction false} RadialStaysBounded(m: Model, q: real, low: real, r: real, s: real)
    requires low > 0.0 && 0.0 <= r <= q && 0.0 <= s <= q && FarFromPole(m, r, low) && FarFromPole(m, s, low)
    ensures Regular(m, r) && Regular(m, s) && BoundedBy(m, r, s, RadialMax(m, q, low))
  {
    match m
    case Pinhole =>
    case Brown(_, _, _, _, _) => BrownBounded(m, q, low, r, s);
    case Polynomial(_, _, _, _, _, _, _, _) => PolynomialBounded(m, q, low, r, s);
  }

  lemma {:induction false} InnerBoundGrows(half: real, halfMax: real, q: real, t: real, second: real, secondMax: real)
    requires q >= 0.0 && t * t >= 0.0 && Abs(half) <= halfMax && Abs(second) <= secondMax
    ensures InnerBound(half, q, t, second) <= InnerBound(halfMax, q, t, secondMax)
  {
    TimesMonotone(Abs(half), Abs(halfMax), q);
    TimesMonotone(Abs(second), Abs(secondMax), t * t);
  }

  lemma {:induction false} CrossBoundGrows(p: real, t: real, first: real, firstMax: real)
    requires p >= 0.0 && t >= 0.0 && Abs(first) <= firstMax
    ensures CrossBound(p, t, first) <= CrossBound(p, t, firstMax)
  {
    TimesMonotone(Abs(first), Abs(firstMax), t);
    TimesMonotone(t * Abs(first), t * Abs(firstMax), p);
  }

  lemma {:induction false} RadialBoundGrows(rho: real, p: real, q: real, t: real, half: real, halfMax: real, first: real,
                                            firstMax: real, second: real, secondMax: real)
    requires rho >= 0.0 && p >= 0.0 && q >= 0.0 && t >= 0.0 && t * t >= 0.0
    requires Abs(half) <= halfMax && Abs(first) <= firstMax && Abs(second) <= secondMax
    ensures RadialBound(rho, p, q, t, half, first, second) <= RadialBound(rho, p, q, t, halfMax, firstMax, secondMax)
  {
    InnerBoundGrows(half, halfMax, q, t, second, secondMax);
    CrossBoundGrows(p, t, first, firstMax);
    TimesMonotone(InnerBound(half, q, t, second), InnerBound(halfMax, q, t, secondMax), rho);
  }

  lemma {:induction false} BoundGrows(rho: real, p: real, half: real, first: real, second: real, max: Radial, a: real, b: real)
    requires rho >= 0.0 && p >= 0.0
    requires Abs(half) <= max.halfRate && Abs(first) <= max.first && Abs(second) <= max.second
    ensures BoundAt(rho, p, half, first, second, a, b) <= BoundAt(rho, p, max.halfRate, max.first, max.second, a, b)
  {
    var t := (2.0 * rho + p) * p;
    SquareIsPositive(p);
    SquareIsPositive(t);
    TimesMonotone(0.0, 2.0 * rho + p, p);
    RadialBoundGrows(rho, p, p * p, t, half, max.halfRate, first, max.first, second, max.second);
  }

  // ----- the bounds for coefficients of at most one half, up to squared radius 4.5 -----

  lemma {:induction false} PositiveOrZero(x: real, y: real)
    requires x >= 0.0 && y >= 0.0
    ensures x * y >= 0.0
  {
  }

  lemma {:induction false} InRange(x: real, xMax: real, y: real, yMax: real, xy: real)
    requires 0.0 <= x <= xMax && 0.0 <= y <= yMax && xy == x * y
    ensures 0.0 <= xy <= xMax * yMax
  {
    PositiveOrZero(x, y);
    TimesMonotone(x, xMax, y);
    TimesMonotone(y, yMax, xMax);
  }

  lemma {:induction false} MildStages(a: real, b: real, c: real, q: real, u: real, v: real)
    requires 0.0 <= a <= 1.5 && 0.0 <= b <= 1.0 && 0.0 <= c <= 0.5 && 0.0 <= q <= 4.5
    requires u == a * q + b && v == u * q + c
    ensures 0.0 <= v <= 36.0
  {
    InRange(a, 1.5, q, 4.5, u - b);
    InRange(u, 7.75, q, 4.5, v - c);
  }

  lemma {:induction false} MildSlope(k1: real, k2: real, k3: real, q: real)
    requires Abs(k1) <= 0.5 && Abs(k2) <= 0.5 && Abs(k3) <= 0.5 && 0.0 <= q <= 4.5
    ensures 0.0 <= SlopeMax(k1, k2, k3, q) <= 36.0
  {
    MildStages(3.0 * Abs(k3), 2.0 * Abs(k2), Abs(k1), q, 3.0 * Abs(k3) * q + 2.0 * Abs(k2), SlopeMax(k1, k2, k3, q));
  }

  lemma {:induction false} MildTerms(a: real, b: real, c: real, x: real, y: real, v: real)
    requires 0.0 <= a <= 0.5 && 0.0 <= b <= 0.5 && 0.0 <= c <= 0.5 && 0.0 <= x <= 9.0 && 0.0 <= y <= 60.75
    requires v == a + b * x + c * y
    ensures 0.0 <= v <= 36.0
  {
    InRange(b, 0.5, x, 9.0, b * x);
    InRange(c, 0.5, y, 60.75, c * y);
  }

  lemma {:induction false} MildFirst(k1: real, k2: real, k3: real, q: real)
    requires Abs(k1) <= 0.5 && Abs(k2) <= 0.5 && Abs(k3) <= 0.5 && 0.0 <= q <= 4.5
    ensures 0.0 <= FirstMax(k1, k2, k3, q) <= 36.0
  {
    InRange(q, 4.5, q, 4.5, q * q);
    MildTerms(Abs(k1), Abs(k2), Abs(k3), 2.0 * q, 3.0 * (q * q), FirstMax(k1, k2, k3, q));
  }

  lemma {:induction false} MildSecond(k2: real, k3: real, q: real)
    requires Abs(k2) <= 0.5 && Abs(k3) <= 0.5 && 0.0 <= q <= 4.5
    ensures 0.0 <= SecondMax(k2, k3, q) <= 8.0
  {
    InRange(Abs(k3), 0.5, 3.0 * q, 13.5, Abs(k3) * (3.0 * q));
  }

  lemma {:induction false} MildInner(half: real, t: real, second: real)
    requires 0.0 <= half <= 36.0 && 0.0 <= second <= 8.0 && 0.0 <= t <= 0.000043
    ensures 0.0 <= InnerBound(half, PRECISION * PRECISION, t, second) <= 0.0000000184
  {
    TimesBounded(t, 0.000043, t, 0.000043);
    PositiveOrZero(t, t);
    TimesBounded(t * t, 0.000000001849, second, 8.0);
    PositiveOrZero(t * t, second);
    assert PRECISION * PRECISION == 0.0000000001;
  }

  lemma {:induction false} MildCross(t: real, first: real)
    requires 0.0 <= first <= 36.0 && 0.0 <= t <= 0.000043
    ensures 0.0 <= CrossBound(PRECISION, t, first) <= 0.00000001548
  {
    TimesBounded(t, 0.000043, first, 36.0);
    PositiveOrZero(t, first);
  }

  lemma {:induction false} MildTangential(a: real, b: real)
    requires Abs(a) <= 0.5 && Abs(b) <= 0.5
    ensures 0.0 <= TangentialBound(a, b, PRECISION * PRECISION) <= 0.0000000002
  {
    assert PRECISION * PRECISION == 0.0000000001;
  }

  lemma {:induction false} MildSum(rho: real, inner: real, cross: real, tangential: real, sum: real)
    requires 0.0 <= rho <= 2.1 && 0.0 <= inner <= 0.0000000184 && 0.0 <= cross <= 0.00000001548
    requires 0.0 <= tangential <= 0.0000000002 && sum == rho * inner + cross + tangential
    ensures 0.0 <= sum <= 0.00000006
  {
    InRange(rho, 2.1, inner, 0.0000000184, rho * inner);
  }

  lemma {:induction false} MildBound(rho: real, half: real, first: real, second: real, a: real, b: real)
    requires 0.0 <= rho <= 2.1 && 0.0 <= half <= 36.0 && 0.0 <= first <= 36.0 && 0.0 <= second <= 8.0
    requires Abs(a) <= 0.5 && Abs(b) <= 0.5
    ensures 0.0 <= BoundAt(rho, PRECISION, half, first, second, a, b) <= 0.00000006
  {
    var q, t := PRECISION * PRECISION, (2.0 * rho + PRECISION) * PRECISION;
    MildInner(half, t, second);
    MildCross(t, first);
    MildTangential(a, b);
    MildSum(rho, InnerBound(half, q, t, second), CrossBound(PRECISION, t, first), TangentialBound(a, b, q),
            BoundAt(rho, PRECISION, half, first, second, a, b));
  }
}
