/** Lens distortion (libs/camera/camera.cpp): the pinhole, Brown and rational polynomial models over real
    numbers, and their hand-derived Jacobians, proved to be the derivatives of distort.

    The proof runs distort on dual numbers: a function along a line together with its slope at the start. Sums,
    products and quotients of duals carry the slopes along, so that the slope of the whole is found step by step
    and then compared with the matrix the code computes. At the end distort is written out as one formula. */
module CameraModels {
  import opened Wrappers
  import opened Reals
  import opened Derivative

  datatype Vec2 = Vec2(x: real, y: real)

  datatype Matrix2 = Matrix2(m00: real, m01: real, m10: real, m11: real)

  datatype Model =
    | Pinhole
    | Brown(k1: real, k2: real, k3: real, p1: real, p2: real)
    | Polynomial(k1: real, k2: real, k3: real, k4: real, k5: real, k6: real, p1: real, p2: real)

  function SquaredNorm(v: Vec2): real {
    v.x * v.x + v.y * v.y
  }

  // ----- distort -----

  function BrownRadial(k1: real, k2: real, k3: real, r2: real): real {
    var r4 := r2 * r2;
    var r6 := r4 * r2;
    1.0 + k1 * r2 + k2 * r4 + k3 * r6
  }

  function BrownPoint(x: real, y: real, radial: real, r2: real, p1: real, p2: real): Vec2 {
    var x2, y2, xy := x * x, y * y, x * y;
    Vec2(radial * x + (2.0 * p1 * xy + p2 * (r2 + 2.0 * x2)), radial * y + (2.0 * p2 * xy + p1 * (r2 + 2.0 * y2)))
  }

  function Cubic(k1: real, k2: real, k3: real, r: real): real {
    1.0 + ((k3 * r + k2) * r + k1) * r
  }

  function Ratio(n: real, d: real): real {
    if d == 0.0 then 0.0 else n / d
  }

  function PolynomialPoint(x: real, y: real, kr: real, r2: real, p1: real, p2: real): Vec2 {
    var x2, y2 := x * x, y * y;
    Vec2(x * kr + p1 * (2.0 * x * y) + p2 * (r2 + 2.0 * x2), y * kr + p1 * (r2 + 2.0 * y2) + p2 * (2.0 * x * y))
  }

  /** Only the rational model has points it cannot distort: the poles of its radial factor. (In floating
      point the division there yields infinities or NaNs.) */
  predicate Defined(m: Model, xy: Vec2) {
    m.Polynomial? ==> Cubic(m.k4, m.k5, m.k6, SquaredNorm(xy)) != 0.0
  }

  function Distorted(m: Model, xy: Vec2): Vec2 {
    var r2 := SquaredNorm(xy);
    match m
    case Pinhole => xy
    case Brown(k1, k2, k3, p1, p2) => BrownPoint(xy.x, xy.y, BrownRadial(k1, k2, k3, r2), r2, p1, p2)
    case Polynomial(k1, k2, k3, k4, k5, k6, p1, p2) =>
      PolynomialPoint(xy.x, xy.y, Ratio(Cubic(k1, k2, k3, r2), Cubic(k4, k5, k6, r2)), r2, p1, p2)
  }

  function Distort(m: Model, xy: Vec2): Option<Vec2> {
    if Defined(m, xy) then Some(Distorted(m, xy)) else None
  }

  // ----- compute_distort_jacobian -----

  function BrownJacobian(x: real, y: real, t1: real, t3: real, p1: real, p2: real): Matrix2 {
    var t2 := 2.0 * (p1 * x + p2 * y) + x * y * t3;
    Matrix2(t1 + 6.0 * p2 * x + 2.0 * p1 * y + t3 * (x * x), t2,
            t2, t1 + 2.0 * p2 * x + 6.0 * p1 * y + t3 * (y * y))
  }

  /** t3: twice the derivative of the radial factor by r2. */
  function BrownRate(k1: real, k2: real, k3: real, r2: real): real {
    6.0 * k3 * (r2 * r2) + 4.0 * k2 * r2 + 2.0 * k1
  }

  function CubicSlope(k1: real, k2: real, k3: real, r: real): real {
    (3.0 * k3 * r + 2.0 * k2) * r + k1
  }

  /** c: the same for the quotient s / t. */
  function PolynomialRate(s: real, t: real, a: real, b: real): real
    requires t != 0.0
  {
    2.0 * (a * t - s * b) / (t * t)
  }

  function PolynomialJacobian(x: real, y: real, kr: real, c: real, p1: real, p2: real): Matrix2 {
    var j01 := x * y * c + 2.0 * p1 * x + 2.0 * p2 * y;
    Matrix2((x * x) * c + kr + 2.0 * p1 * y + 6.0 * p2 * x, j01,
            j01, (y * y) * c + kr + 6.0 * p1 * y + 2.0 * p2 * x)
  }

  function Jacobian(m: Model, xy: Vec2): Matrix2
    requires Defined(m, xy)
  {
    var r2 := SquaredNorm(xy);
    match m
    case Pinhole => Matrix2(1.0, 0.0, 0.0, 1.0)
    case Brown(k1, k2, k3, p1, p2) =>
      BrownJacobian(xy.x, xy.y, BrownRadial(k1, k2, k3, r2), BrownRate(k1, k2, k3, r2), p1, p2)
    case Polynomial(k1, k2, k3, k4, k5, k6, p1, p2) =>
      var s, t := Cubic(k1, k2, k3, r2), Cubic(k4, k5, k6, r2);
      var a, b := CubicSlope(k1, k2, k3, r2), CubicSlope(k4, k5, k6, r2);
      PolynomialJacobian(xy.x, xy.y, s / t, PolynomialRate(s, t, a, b), p1, p2)
  }

  // ----- both models in one form -----

  function Tangential1(m: Model): real {
    if m.Pinhole? then 0.0 else m.p1
  }

  function Tangential2(m: Model): real {
    if m.Pinhole? then 0.0 else m.p2
  }

  predicate Regular(m: Model, r2: real) {
    m.Polynomial? ==> Cubic(m.k4, m.k5, m.k6, r2) != 0.0
  }

  function RadialFactor(m: Model, r2: real): real {
    match m
    case Pinhole => 1.0
    case Brown(k1, k2, k3, _, _) => BrownRadial(k1, k2, k3, r2)
    case Polynomial(k1, k2, k3, k4, k5, k6, _, _) => Ratio(Cubic(k1, k2, k3, r2), Cubic(k4, k5, k6, r2))
  }

  function RadialRate(m: Model, r2: real): real
    requires Regular(m, r2)
  {
    match m
    case Pinhole => 0.0
    case Brown(k1, k2, k3, _, _) => BrownRate(k1, k2, k3, r2)
    case Polynomial(k1, k2, k3, k4, k5, k6, _, _) =>
      PolynomialRate(Cubic(k1, k2, k3, r2), Cubic(k4, k5, k6, r2), CubicSlope(k1, k2, k3, r2), CubicSlope(k4, k5, k6, r2))
  }

  /** One coordinate: x with (a, b) = (p1, p2) and (u, v) = (x, y); y with both pairs swapped. */
  function Coordinate(u: real, v: real, k: real, r2: real, a: real, b: real): real {
    u * k + (2.0 * a * (u * v) + b * (r2 + 2.0 * (u * u)))
  }

  /** Its slope when u and v move at speeds du and dv. */
  function CoordinateRate(u: real, v: real, du: real, dv: real, k: real, c: real, a: real, b: real): real {
    OwnRate(u, v, k, c, a, b) * du + CrossRate(u, v, c, a, b) * dv
  }

  function OwnRate(u: real, v: real, k: real, c: real, a: real, b: real): real {
    k + c * (u * u) + 2.0 * a * v + 6.0 * b * u
  }

  function CrossRate(u: real, v: real, c: real, a: real, b: real): real {
    c * (u * v) + 2.0 * a * u + 2.0 * b * v
  }

  function CommonJacobian(x: real, y: real, k: real, c: real, p1: real, p2: real): Matrix2 {
    Matrix2(OwnRate(x, y, k, c, p1, p2), CrossRate(x, y, c, p1, p2),
            CrossRate(y, x, c, p2, p1), OwnRate(y, x, k, c, p2, p1))
  }

  lemma {:induction false} PinholePoint(x: real, y: real, r2: real)
    ensures Vec2(Coordinate(x, y, 1.0, r2, 0.0, 0.0), Coordinate(y, x, 1.0, r2, 0.0, 0.0)) == Vec2(x, y)
  {
  }

  lemma {:induction false} BrownPointIs(x: real, y: real, k: real, r2: real, p1: real, p2: real)
    ensures BrownPoint(x, y, k, r2, p1, p2) ==
            Vec2(Coordinate(x, y, k, r2, p1, p2), Coordinate(y, x, k, r2, p2, p1))
  {
  }

  lemma {:induction false} PolynomialPointIs(x: real, y: real, k: real, r2: real, p1: real, p2: real)
    ensures PolynomialPoint(x, y, k, r2, p1, p2) ==
            Vec2(Coordinate(x, y, k, r2, p1, p2), Coordinate(y, x, k, r2, p2, p1))
  {
  }

  lemma {:induction false} DistortedIs(m: Model, xy: Vec2)
    ensures var r2 := SquaredNorm(xy);
            var k := RadialFactor(m, r2);
            Distorted(m, xy) ==
              Vec2(Coordinate(xy.x, xy.y, k, r2, Tangential1(m), Tangential2(m)),
                   Coordinate(xy.y, xy.x, k, r2, Tangential2(m), Tangential1(m)))
  {
    var r2 := SquaredNorm(xy);
    var k := RadialFactor(m, r2);
    match m
    case Pinhole => PinholePoint(xy.x, xy.y, r2);
    case Brown(_, _, _, p1, p2) => BrownPointIs(xy.x, xy.y, k, r2, p1, p2);
    case Polynomial(_, _, _, _, _, _, p1, p2) => PolynomialPointIs(xy.x, xy.y, k, r2, p1, p2);
  }

  function Row0(j: Matrix2, dir: Vec2): real {
    j.m00 * dir.x + j.m01 * dir.y
  }

  function Row1(j: Matrix2, dir: Vec2): real {
    j.m10 * dir.x + j.m11 * dir.y
  }

  lemma {:induction false} BrownCommon(x: real, y: real, k: real, c: real, p1: real, p2: real)
    ensures BrownJacobian(x, y, k, c, p1, p2) == CommonJacobian(x, y, k, c, p1, p2)
  {
  }

  lemma {:induction false} PolynomialCommon(x: real, y: real, k: real, c: real, p1: real, p2: real)
    ensures PolynomialJacobian(x, y, k, c, p1, p2) == CommonJacobian(x, y, k, c, p1, p2)
  {
  }

  lemma {:induction false} PinholeCommon(x: real, y: real)
    ensures Matrix2(1.0, 0.0, 0.0, 1.0) == CommonJacobian(x, y, 1.0, 0.0, 0.0, 0.0)
  {
  }

  lemma {:induction false} JacobianCommon(m: Model, xy: Vec2, k: real, c: real)
    requires Regular(m, SquaredNorm(xy)) && k == RadialFactor(m, SquaredNorm(xy)) && c == RadialRate(m, SquaredNorm(xy))
    ensures Jacobian(m, xy) == CommonJacobian(xy.x, xy.y, k, c, Tangential1(m), Tangential2(m))
  {
    match m
    case Pinhole => PinholeCommon(xy.x, xy.y);
    case Brown(_, _, _, p1, p2) => BrownCommon(xy.x, xy.y, k, c, p1, p2);
    case Polynomial(_, _, _, _, _, _, p1, p2) => PolynomialCommon(xy.x, xy.y, k, c, p1, p2);
  }

  lemma {:induction false} CommonRows(xy: Vec2, dir: Vec2, k: real, c: real, p1: real, p2: real)
    ensures var j := CommonJacobian(xy.x, xy.y, k, c, p1, p2);
            && Row0(j, dir) == CoordinateRate(xy.x, xy.y, dir.x, dir.y, k, c, p1, p2)
            && Row1(j, dir) == CoordinateRate(xy.y, xy.x, dir.y, dir.x, k, c, p2, p1)
  {
  }

  // ----- computing on dual numbers -----

  lemma {:induction false} RadiusOnDuals(u: Dual, v: Dual, half: real) returns (r: Dual)
    requires u.Sound() && v.Sound() && half == u.value * u.slope + v.value * v.slope
    ensures r.Sound() && r.value == SquaredNorm(Vec2(u.value, v.value)) && r.slope == 2.0 * half
    ensures forall h: real :: r.along(h) == SquaredNorm(Vec2(u.along(h), v.along(h)))
  {
    TimesSound(u, u);
    TimesSound(v, v);
    PlusSound(Times(u, u), Times(v, v));
    r := Plus(Times(u, u), Times(v, v));
  }

  function CubicDual(k1: real, k2: real, k3: real, r: Dual): Dual {
    var inner := Plus(Times(Constant(k3), r), Constant(k2));
    Plus(Constant(1.0), Times(Plus(Times(inner, r), Constant(k1)), r))
  }

  lemma {:induction false} CubicSound(k1: real, k2: real, k3: real, r: Dual)
    requires r.Sound()
    ensures CubicDual(k1, k2, k3, r).Sound()
  {
    ConstantSound(k3);
    ConstantSound(k2);
    ConstantSound(k1);
    ConstantSound(1.0);
    TimesSound(Constant(k3), r);
    PlusSound(Times(Constant(k3), r), Constant(k2));
    var inner := Plus(Times(Constant(k3), r), Constant(k2));
    TimesSound(inner, r);
    PlusSound(Times(inner, r), Constant(k1));
    TimesSound(Plus(Times(inner, r), Constant(k1)), r);
    PlusSound(Constant(1.0), Times(Plus(Times(inner, r), Constant(k1)), r));
  }

  lemma {:induction false} CubicRate(k1: real, k2: real, k3: real, r: Dual)
    ensures CubicDual(k1, k2, k3, r).value == Cubic(k1, k2, k3, r.value)
    ensures CubicDual(k1, k2, k3, r).slope == CubicSlope(k1, k2, k3, r.value) * r.slope
  {
  }

  lemma {:induction false} CubicOnDuals(k1: real, k2: real, k3: real, r: Dual) returns (d: Dual)
    requires r.Sound()
    ensures d.Sound() && d.value == Cubic(k1, k2, k3, r.value)
    ensures d.slope == CubicSlope(k1, k2, k3, r.value) * r.slope
    ensures forall h: real :: d.along(h) == Cubic(k1, k2, k3, r.along(h))
  {
    d := CubicDual(k1, k2, k3, r);
    CubicSound(k1, k2, k3, r);
    CubicRate(k1, k2, k3, r);
    forall h: real ensures d.along(h) == Cubic(k1, k2, k3, r.along(h)) {
    }
  }

  lemma {:induction false} QuotientParts(n: Dual, d: Dual, a: real, b: real, half: real)
    requires d.value != 0.0 && n.slope == a * (2.0 * half) && d.slope == b * (2.0 * half)
    ensures Times(n, Reciprocally(d)).value == Ratio(n.value, d.value)
    ensures Times(n, Reciprocally(d)).slope == PolynomialRate(n.value, d.value, a, b) * half
  {
  }

  lemma {:induction false} QuotientOnDuals(n: Dual, d: Dual, a: real, b: real, half: real) returns (q: Dual)
    requires n.Sound() && d.Sound() && d.value != 0.0
    requires n.slope == a * (2.0 * half) && d.slope == b * (2.0 * half)
    ensures q.Sound() && q.value == Ratio(n.value, d.value)
    ensures q.slope == PolynomialRate(n.value, d.value, a, b) * half
    ensures forall h: real :: q.along(h) == Ratio(n.along(h), d.along(h))
  {
    ReciprocalSound(d);
    TimesSound(n, Reciprocally(d));
    QuotientParts(n, d, a, b, half);
    forall h: real ensures Times(n, Reciprocally(d)).along(h) == Ratio(n.along(h), d.along(h)) {
    }
    q := Times(n, Reciprocally(d));
  }

  lemma {:induction false} BrownRadialIsCubic(k1: real, k2: real, k3: real, r2: real)
    ensures BrownRadial(k1, k2, k3, r2) == Cubic(k1, k2, k3, r2)
  {
  }

  lemma {:induction false} BrownRateIs(k1: real, k2: real, k3: real, r2: real, half: real)
    ensures CubicSlope(k1, k2, k3, r2) * (2.0 * half) == BrownRate(k1, k2, k3, r2) * half
  {
  }

  ghost predicate RadialOn(m: Model, r: Dual, half: real, k: Dual)
    requires Regular(m, r.value)
  {
    && k.Sound() && k.value == RadialFactor(m, r.value) && k.slope == RadialRate(m, r.value) * half
    && forall h: real :: k.along(h) == RadialFactor(m, r.along(h))
  }

  lemma {:induction false} PinholeOnDuals(m: Model, r: Dual, half: real) returns (k: Dual)
    requires m.Pinhole?
    ensures RadialOn(m, r, half, k)
  {
    k := Constant(1.0);
    ConstantSound(1.0);
  }

  lemma {:induction false} BrownOnDuals(m: Model, r: Dual, half: real) returns (k: Dual)
    requires m.Brown? && r.Sound() && r.slope == 2.0 * half
    ensures RadialOn(m, r, half, k)
  {
    k := CubicOnDuals(m.k1, m.k2, m.k3, r);
    BrownRadialIsCubic(m.k1, m.k2, m.k3, r.value);
    BrownRateIs(m.k1, m.k2, m.k3, r.value, half);
    forall h: real ensures k.along(h) == RadialFactor(m, r.along(h)) {
      BrownRadialIsCubic(m.k1, m.k2, m.k3, r.along(h));
    }
  }

  lemma {:induction false} PolynomialOnDuals(m: Model, r: Dual, half: real) returns (k: Dual)
    requires m.Polynomial? && Regular(m, r.value) && r.Sound() && r.slope == 2.0 * half
    ensures RadialOn(m, r, half, k)
  {
    var n := CubicOnDuals(m.k1, m.k2, m.k3, r);
    var d := CubicOnDuals(m.k4, m.k5, m.k6, r);
    k := QuotientOnDuals(n, d, CubicSlope(m.k1, m.k2, m.k3, r.value), CubicSlope(m.k4, m.k5, m.k6, r.value), half);
  }

  lemma {:induction false} RadialOnDuals(m: Model, r: Dual, half: real) returns (k: Dual)
    requires Regular(m, r.value) && r.Sound() && r.slope == 2.0 * half
    ensures RadialOn(m, r, half, k)
  {
    match m
    case Pinhole => k := PinholeOnDuals(m, r, half);
    case Brown(_, _, _, _, _) => k := BrownOnDuals(m, r, half);
    case Polynomial(_, _, _, _, _, _, _, _) => k := PolynomialOnDuals(m, r, half);
  }

  function CoordinateDual(u: Dual, v: Dual, k: Dual, r: Dual, a: real, b: real): Dual {
    Plus(Times(u, k),
         Plus(Times(Constant(2.0 * a), Times(u, v)), Times(Constant(b), Plus(r, Times(Constant(2.0), Times(u, u))))))
  }

  lemma {:induction false} CoordinateSound(u: Dual, v: Dual, k: Dual, r: Dual, a: real, b: real)
    requires k.Sound() && u.Sound() && v.Sound() && r.Sound()
    ensures CoordinateDual(u, v, k, r, a, b).Sound()
  {
    ConstantSound(2.0 * a);
    ConstantSound(b);
    ConstantSound(2.0);
    TimesSound(u, v);
    TimesSound(u, u);
    TimesSound(Constant(2.0 * a), Times(u, v));
    TimesSound(Constant(2.0), Times(u, u));
    PlusSound(r, Times(Constant(2.0), Times(u, u)));
    TimesSound(Constant(b), Plus(r, Times(Constant(2.0), Times(u, u))));
    PlusSound(Times(Constant(2.0 * a), Times(u, v)), Times(Constant(b), Plus(r, Times(Constant(2.0), Times(u, u)))));
    TimesSound(u, k);
    PlusSound(Times(u, k), Plus(Times(Constant(2.0 * a), Times(u, v)),
                                Times(Constant(b), Plus(r, Times(Constant(2.0), Times(u, u))))));
  }

  lemma {:induction false} CoordinateAlong(u: Dual, v: Dual, k: Dual, r: Dual, a: real, b: real, h: real)
    ensures CoordinateDual(u, v, k, r, a, b).along(h) ==
            Coordinate(u.along(h), v.along(h), k.along(h), r.along(h), a, b)
  {
  }

  lemma {:induction false} SlopeParts(u: real, v: real, du: real, dv: real, k: real, c: real, a: real, b: real)
    ensures du * k + u * (c * (u * du + v * dv)) +
            ((2.0 * a) * (du * v + u * dv) + b * (2.0 * (u * du + v * dv) + 2.0 * (du * u + u * du))) ==
            CoordinateRate(u, v, du, dv, k, c, a, b)
  {
  }

  lemma {:induction false} SlopeSum(u: real, v: real, du: real, dv: real, k: real, dk: real, c: real, dr: real,
                                    half: real, a: real, b: real)
    requires half == u * du + v * dv && dr == 2.0 * half && dk == c * half
    ensures du * k + u * dk + ((2.0 * a) * (du * v + u * dv) + b * (dr + 2.0 * (du * u + u * du))) ==
            CoordinateRate(u, v, du, dv, k, c, a, b)
  {
    calc {
      u * dk;
      u * (c * half);
      u * (c * (u * du + v * dv));
    }
    calc {
      b * (dr + 2.0 * (du * u + u * du));
      b * (2.0 * half + 2.0 * (du * u + u * du));
      b * (2.0 * (u * du + v * dv) + 2.0 * (du * u + u * du));
    }
    SlopeParts(u, v, du, dv, k, c, a, b);
  }

  lemma {:induction false} CoordinateSlopeIs(u: Dual, v: Dual, k: Dual, r: Dual, a: real, b: real)
    ensures CoordinateDual(u, v, k, r, a, b).slope ==
            u.slope * k.value + u.value * k.slope +
            ((2.0 * a) * (u.slope * v.value + u.value * v.slope) +
             b * (r.slope + 2.0 * (u.slope * u.value + u.value * u.slope)))
  {
  }

  lemma {:induction false} CoordinateSlope(u: Dual, v: Dual, k: Dual, r: Dual, half: real, c: real, a: real, b: real, d: real)
    requires half == u.value * u.slope + v.value * v.slope && r.slope == 2.0 * half && k.slope == c * half
    requires d == CoordinateDual(u, v, k, r, a, b).slope
    ensures d == CoordinateRate(u.value, v.value, u.slope, v.slope, k.value, c, a, b)
  {
    CoordinateSlopeIs(u, v, k, r, a, b);
    SlopeSum(u.value, v.value, u.slope, v.slope, k.value, k.slope, c, r.slope, half, a, b);
  }

  lemma {:induction false} CoordinateOnDuals(u: Dual, v: Dual, k: Dual, r: Dual, half: real, c: real, a: real, b: real)
    returns (d: Dual)
    requires k.Sound() && u.Sound() && v.Sound() && r.Sound()
    requires half == u.value * u.slope + v.value * v.slope && r.slope == 2.0 * half && k.slope == c * half
    ensures d.Sound() && d.slope == CoordinateRate(u.value, v.value, u.slope, v.slope, k.value, c, a, b)
    ensures forall h: real :: d.along(h) == Coordinate(u.along(h), v.along(h), k.along(h), r.along(h), a, b)
  {
    d := CoordinateDual(u, v, k, r, a, b);
    CoordinateSound(u, v, k, r, a, b);
    CoordinateSlope(u, v, k, r, half, c, a, b, d.slope);
    forall h: real ensures d.along(h) == Coordinate(u.along(h), v.along(h), k.along(h), r.along(h), a, b) {
      CoordinateAlong(u, v, k, r, a, b, h);
    }
  }

  // ----- the Jacobian is the derivative -----

  function Moved(xy: Vec2, dir: Vec2, h: real): Vec2 {
    Vec2(xy.x + h * dir.x, xy.y + h * dir.y)
  }

  /** The coordinates of distort along the line from xy in the direction dir. */
  function AlongX(m: Model, xy: Vec2, dir: Vec2): real -> real {
    (h: real) => Distorted(m, Moved(xy, dir, h)).x
  }

  function AlongY(m: Model, xy: Vec2, dir: Vec2): real -> real {
    (h: real) => Distorted(m, Moved(xy, dir, h)).y
  }

  ghost predicate Same(f: real -> real, g: real -> real) {
    forall h: real :: f(h) == g(h)
  }

  lemma {:induction false} SameDerivative(f: real -> real, g: real -> real, d: real)
    requires Same(f, g) && HasDerivative(f, d)
    ensures HasDerivative(g, d)
  {
    var q: real -> real :| DerivativeVia(f, d, q);
    var t :| QuotientWith(f, q, t);
    forall h: real | Abs(h) <= t ensures QuotientAt(g, q, h) {
      assert QuotientAt(f, q, h);
    }
    assert QuotientWith(g, q, t);
    assert DerivativeVia(g, d, q);
  }

  lemma {:induction false} LineOnDuals(x: real, d: real) returns (u: Dual)
    ensures u.Sound() && u.value == x && u.slope == d && forall h: real :: u.along(h) == x + h * d
  {
    MovingSound(x, d);
    u := Moving(x, d);
  }

  ghost predicate Evaluates(m: Model, xy: Vec2, dir: Vec2, f: Dual, g: Dual, k: real, c: real) {
    && f.Sound() && Same(f.along, AlongX(m, xy, dir))
    && f.slope == CoordinateRate(xy.x, xy.y, dir.x, dir.y, k, c, Tangential1(m), Tangential2(m))
    && g.Sound() && Same(g.along, AlongY(m, xy, dir))
    && g.slope == CoordinateRate(xy.y, xy.x, dir.y, dir.x, k, c, Tangential2(m), Tangential1(m))
  }

  lemma {:induction false} AlongIs(m: Model, xy: Vec2, dir: Vec2, f: Dual, g: Dual, u: Dual, v: Dual, r: Dual, k: Dual,
                                   p1: real, p2: real, h: real)
    requires p1 == Tangential1(m) && p2 == Tangential2(m)
    requires Moved(xy, dir, h) == Vec2(u.along(h), v.along(h))
    requires r.along(h) == SquaredNorm(Moved(xy, dir, h)) && k.along(h) == RadialFactor(m, r.along(h))
    requires f.along(h) == Coordinate(u.along(h), v.along(h), k.along(h), r.along(h), p1, p2)
    requires g.along(h) == Coordinate(v.along(h), u.along(h), k.along(h), r.along(h), p2, p1)
    ensures f.along(h) == AlongX(m, xy, dir)(h) && g.along(h) == AlongY(m, xy, dir)(h)
  {
    DistortedIs(m, Moved(xy, dir, h));
  }

  /** distort, run on dual numbers moving along a line. */
  lemma {:induction false} DistortOnDuals(m: Model, xy: Vec2, dir: Vec2) returns (f: Dual, g: Dual)
    requires Regular(m, SquaredNorm(xy))
    ensures Evaluates(m, xy, dir, f, g, RadialFactor(m, SquaredNorm(xy)), RadialRate(m, SquaredNorm(xy)))
  {
    var p1, p2 := Tangential1(m), Tangential2(m);
    var u := LineOnDuals(xy.x, dir.x);
    var v := LineOnDuals(xy.y, dir.y);
    var half := xy.x * dir.x + xy.y * dir.y;
    var r := RadiusOnDuals(u, v, half);
    var k := RadialOnDuals(m, r, half);
    var c := RadialRate(m, SquaredNorm(xy));
    f := CoordinateOnDuals(u, v, k, r, half, c, p1, p2);
    g := CoordinateOnDuals(v, u, k, r, half, c, p2, p1);
    forall h: real ensures f.along(h) == AlongX(m, xy, dir)(h) && g.along(h) == AlongY(m, xy, dir)(h) {
      AlongIs(m, xy, dir, f, g, u, v, r, k, p1, p2, h);
    }
  }

  /** compute_distort_jacobian is the derivative of distort, at every point where distort is defined and in
      every direction: the matrix times the direction is the dual part of distort on dual numbers. */
  lemma {:induction false} JacobianIsDerivative(m: Model, xy: Vec2, dir: Vec2)
    requires Defined(m, xy)
    ensures HasDerivative(AlongX(m, xy, dir), Row0(Jacobian(m, xy), dir))
    ensures HasDerivative(AlongY(m, xy, dir), Row1(Jacobian(m, xy), dir))
  {
    var f, g := DistortOnDuals(m, xy, dir);
    var k, c := RadialFactor(m, SquaredNorm(xy)), RadialRate(m, SquaredNorm(xy));
    JacobianCommon(m, xy, k, c);
    CommonRows(xy, dir, k, c, Tangential1(m), Tangential2(m));
    SameDerivative(f.along, AlongX(m, xy, dir), f.slope);
    SameDerivative(g.along, AlongY(m, xy, dir), g.slope);
  }

  /** In other words: divided by the length of the way, what both coordinates change by is as close to the
      matrix times the direction as one likes. */
  lemma {:induction false} JacobianIsLimit(m: Model, xy: Vec2, dir: Vec2, eps: real) returns (delta: real)
    requires Defined(m, xy) && eps > 0.0
    ensures NearWithin(AlongX(m, xy, dir), Row0(Jacobian(m, xy), dir), eps, delta)
    ensures NearWithin(AlongY(m, xy, dir), Row1(Jacobian(m, xy), dir), eps, delta)
  {
    JacobianIsDerivative(m, xy, dir);
    DerivativeIsLimit(AlongX(m, xy, dir), Row0(Jacobian(m, xy), dir), eps);
    DerivativeIsLimit(AlongY(m, xy, dir), Row1(Jacobian(m, xy), dir), eps);
    var dx: real :| NearWithin(AlongX(m, xy, dir), Row0(Jacobian(m, xy), dir), eps, dx);
    var dy: real :| NearWithin(AlongY(m, xy, dir), Row1(Jacobian(m, xy), dir), eps, dy);
    delta := Min(dx, dy);
    NearShrinks(AlongX(m, xy, dir), Row0(Jacobian(m, xy), dir), eps, dx, delta);
    NearShrinks(AlongY(m, xy, dir), Row1(Jacobian(m, xy), dir), eps, dy, delta);
  }

  /** And no other matrix is: whatever has the right derivative in both axis directions equals it. */
  lemma {:induction false} JacobianIsUnique(m: Model, xy: Vec2, j: Matrix2)
    requires Defined(m, xy)
    requires HasDerivative(AlongX(m, xy, Vec2(1.0, 0.0)), j.m00) && HasDerivative(AlongX(m, xy, Vec2(0.0, 1.0)), j.m01)
    requires HasDerivative(AlongY(m, xy, Vec2(1.0, 0.0)), j.m10) && HasDerivative(AlongY(m, xy, Vec2(0.0, 1.0)), j.m11)
    ensures j == Jacobian(m, xy)
  {
    var a, b, s := Vec2(1.0, 0.0), Vec2(0.0, 1.0), Jacobian(m, xy);
    JacobianIsDerivative(m, xy, a);
    JacobianIsDerivative(m, xy, b);
    DerivativeIsUnique(AlongX(m, xy, a), j.m00, Row0(s, a));
    DerivativeIsUnique(AlongX(m, xy, b), j.m01, Row0(s, b));
    DerivativeIsUnique(AlongY(m, xy, a), j.m10, Row1(s, a));
    DerivativeIsUnique(AlongY(m, xy, b), j.m11, Row1(s, b));
  }

  // ----- distort written out -----

  function PowerSum(a: real, b: real, c: real, r2: real): real {
    1.0 + a * r2 + b * (r2 * r2) + c * (r2 * r2 * r2)
  }

  /** The point scaled by s and moved by the tangential terms. */
  predicate ScaledAndMoved(x: real, y: real, s: real, p1: real, p2: real, d: Vec2) {
    && d.x == s * x + (2.0 * p1 * (x * y) + p2 * (3.0 * (x * x) + y * y))
    && d.y == s * y + (2.0 * p2 * (x * y) + p1 * (x * x + 3.0 * (y * y)))
  }

  /** For the rational model the factor is a quotient. */
  ghost predicate QuotientAndMoved(x: real, y: real, n: real, t: real, p1: real, p2: real, d: Vec2) {
    exists s: real :: ScaledAndMoved(x, y, s, p1, p2, d) && s * t == n
  }

  ghost predicate DistortedTo(m: Model, x: real, y: real, r2: real, d: Vec2) {
    && r2 == x * x + y * y
    && match m
       case Pinhole => d == Vec2(x, y)
       case Brown(k1, k2, k3, p1, p2) => ScaledAndMoved(x, y, PowerSum(k1, k2, k3, r2), p1, p2, d)
       case Polynomial(k1, k2, k3, k4, k5, k6, p1, p2) =>
         QuotientAndMoved(x, y, PowerSum(k1, k2, k3, r2), PowerSum(k4, k5, k6, r2), p1, p2, d)
  }

  lemma {:induction false} CubicIs(a: real, b: real, c: real, r: real)
    ensures Cubic(a, b, c, r) == PowerSum(a, b, c, r)
  {
    var cr := c * r;
    assert (cr + b) * r == cr * r + b * r;
    assert ((cr + b) * r + a) * r == (cr * r) * r + (b * r) * r + a * r;
  }

  lemma {:induction false} BrownMoves(x: real, y: real, r2: real, s: real, p1: real, p2: real)
    requires r2 == x * x + y * y
    ensures ScaledAndMoved(x, y, s, p1, p2, BrownPoint(x, y, s, r2, p1, p2))
  {
  }

  lemma {:induction false} PolynomialMoves(x: real, y: real, s: real, p1: real, p2: real)
    ensures ScaledAndMoved(x, y, s, p1, p2, PolynomialPoint(x, y, s, x * x + y * y, p1, p2))
  {
    TwiceProduct(p1, x, y);
    TwiceProduct(p2, x, y);
  }

  lemma {:induction false} TwiceProduct(p: real, x: real, y: real)
    ensures p * (2.0 * x * y) == 2.0 * p * (x * y)
  {
  }

  lemma {:induction false} QuotientTimes(n: real, t: real, s: real)
    requires t != 0.0 && s == Ratio(n, t)
    ensures s * t == n
  {
  }

  lemma {:induction false} QuotientMoves(x: real, y: real, r2: real, n: real, t: real, p1: real, p2: real)
    requires t != 0.0 && r2 == x * x + y * y
    ensures QuotientAndMoved(x, y, n, t, p1, p2, PolynomialPoint(x, y, Ratio(n, t), r2, p1, p2))
  {
    PolynomialMoves(x, y, Ratio(n, t), p1, p2);
    QuotientTimes(n, t, Ratio(n, t));
  }

  lemma {:induction false} BrownIs(k1: real, k2: real, k3: real, p1: real, p2: real, x: real, y: real, r2: real)
    requires r2 == x * x + y * y
    ensures ScaledAndMoved(x, y, PowerSum(k1, k2, k3, r2), p1, p2, BrownPoint(x, y, BrownRadial(k1, k2, k3, r2), r2, p1, p2))
  {
    BrownMoves(x, y, r2, BrownRadial(k1, k2, k3, r2), p1, p2);
    assert BrownRadial(k1, k2, k3, r2) == PowerSum(k1, k2, k3, r2);
  }

  lemma {:induction false} PolynomialIs(m: Model, x: real, y: real, r2: real)
    requires m.Polynomial? && r2 == x * x + y * y && Cubic(m.k4, m.k5, m.k6, r2) != 0.0
    ensures QuotientAndMoved(x, y, PowerSum(m.k1, m.k2, m.k3, r2), PowerSum(m.k4, m.k5, m.k6, r2), m.p1, m.p2,
              PolynomialPoint(x, y, Ratio(Cubic(m.k1, m.k2, m.k3, r2), Cubic(m.k4, m.k5, m.k6, r2)), r2, m.p1, m.p2))
  {
    CubicIs(m.k1, m.k2, m.k3, r2);
    CubicIs(m.k4, m.k5, m.k6, r2);
    QuotientMoves(x, y, r2, Cubic(m.k1, m.k2, m.k3, r2), Cubic(m.k4, m.k5, m.k6, r2), m.p1, m.p2);
  }

  lemma {:induction false} BrownDistortIs(m: Model, xy: Vec2)
    requires m.Brown?
    ensures DistortedTo(m, xy.x, xy.y, SquaredNorm(xy), Distorted(m, xy))
  {
    BrownIs(m.k1, m.k2, m.k3, m.p1, m.p2, xy.x, xy.y, SquaredNorm(xy));
  }

  lemma {:induction false} PolynomialDistortIs(m: Model, xy: Vec2)
    requires m.Polynomial? && Defined(m, xy)
    ensures DistortedTo(m, xy.x, xy.y, SquaredNorm(xy), Distorted(m, xy))
  {
    PolynomialIs(m, xy.x, xy.y, SquaredNorm(xy));
  }

  /** distort: the point scaled by a power series in the squared radius, for the rational model by the quotient
      of two, and moved by the tangential terms. */
  lemma {:induction false} DistortIs(m: Model, xy: Vec2)
    requires Defined(m, xy)
    ensures DistortedTo(m, xy.x, xy.y, SquaredNorm(xy), Distorted(m, xy))
  {
    if m.Brown? {
      BrownDistortIs(m, xy);
    } else if m.Polynomial? {
      PolynomialDistortIs(m, xy);
    }
  }
}
