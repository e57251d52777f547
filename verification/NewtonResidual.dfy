/** The Newton loop of undistort (libs/camera/camera.cpp) accepts a point after a small step without testing
    its residual. This is what the residual there is, to second order in the step. */
module NewtonResidual {
  import opened Wrappers
  import opened Reals
  import opened Derivative
  import opened CameraModels
  import opened CameraProjection
  import opened StepExpansion

  /** After a Newton step the residual is exactly what the linearisation missed. */
  lemma {:induction false} ResidualIsMissed(m: Model, target: Vec2, previous: Vec2, xy: Vec2)
    requires IsNewtonStep(m, target, previous, xy) && Defined(m, xy)
    ensures Minus(Distorted(m, xy), target) == Missed(m, previous, xy)
  {
    DistortExpands(m, previous, xy);
  }

  /** A bound on the residual at xy, of second order in the precision, when previous is within rho of the
      centre. */
  function SecondOrder(m: Model, previous: Vec2, xy: Vec2, rho: real): Vec2
    requires Defined(m, previous) && Defined(m, xy)
  {
    var r, s := SquaredNorm(previous), SquaredNorm(xy);
    var c, first, second := RadialRate(m, r), RadialFirst(m, r, s), RadialSecond(m, r, s);
    BothBounds(rho, PRECISION, c, first, second, Tangential1(m), Tangential2(m))
  }

  lemma {:induction false} MissedBounded(m: Model, previous: Vec2, xy: Vec2, rho: real)
    requires Defined(m, previous) && Defined(m, xy) && IsSmall(xy, previous)
    requires rho >= 0.0 && SquaredNorm(previous) <= rho * rho
    ensures var missed, bound := Missed(m, previous, xy), SecondOrder(m, previous, xy, rho);
            Abs(missed.x) <= bound.x && Abs(missed.y) <= bound.y
  {
    var r, s := SquaredNorm(previous), SquaredNorm(xy);
    var c, first, second := RadialRate(m, r), RadialFirst(m, r, s), RadialSecond(m, r, s);
    BothBounded(previous, Minus(xy, previous), c, first, second, Tangential1(m), Tangential2(m), rho, PRECISION);
  }

  ghost predicate Within(a: Vec2, b: Vec2, bound: Vec2) {
    Abs(a.x - b.x) <= bound.x && Abs(a.y - b.y) <= bound.y
  }

  /** Leaving on a small step bounds the residual of the point returned, to second order in the precision. */
  lemma {:induction false} SmallStepResidual(m: Model, target: Vec2, s: Solution, rho: real)
    requires ExitHolds(m, target, s) && s.exit.SmallStep? && Defined(m, s.xy)
    requires rho >= 0.0 && SquaredNorm(s.exit.previous) <= rho * rho
    ensures Within(Distorted(m, s.xy), target, SecondOrder(m, s.exit.previous, s.xy, rho))
  {
    ResidualIsMissed(m, target, s.exit.previous, s.xy);
    MissedBounded(m, s.exit.previous, s.xy, rho);
  }

  /** The residual test would have passed at the point returned exactly if what the linearisation missed is
      that small. */
  lemma {:induction false} SmallStepSolvesIff(m: Model, target: Vec2, s: Solution)
    requires ExitHolds(m, target, s) && s.exit.SmallStep?
    ensures Solves(m, target, s.xy) <==>
            Defined(m, s.xy) && SquaredNorm(Missed(m, s.exit.previous, s.xy)) <= EPS * EPS
  {
    if Defined(m, s.xy) {
      ResidualIsMissed(m, target, s.exit.previous, s.xy);
    }
  }

  lemma {:induction false} PixelWithin(f: real, p: real, n: real, e: real, bound: real)
    requires f > 0.0 && Abs(e - n) <= bound
    ensures Abs((f * e + p) - (f * n + p)) <= f * bound
  {
    TimesBounded(f, f, e - n, bound);
    assert f * (e - n) == (f * e + p) - (f * n + p);
  }

  function InPixels(c: Camera, bound: Vec2): Vec2 {
    Vec2(c.focal.x * bound.x, c.focal.y * bound.y)
  }

  lemma {:induction false} PixelsWithin(c: Camera, uv: Vec2, e: Vec2, bound: Vec2)
    requires Usable(c) && Within(e, ToNormalized(c, uv), bound)
    ensures Within(ToPixels(c, e), uv, InPixels(c, bound))
  {
    var n := ToNormalized(c, uv);
    ToPixelsBack(c, uv);
    PixelWithin(c.focal.x, c.principal.x, n.x, e.x, bound.x);
    PixelWithin(c.focal.y, c.principal.y, n.y, e.y, bound.y);
  }

  lemma {:induction false} BothWays(c: Camera, uv: Vec2)
    requires Usable(c) && Normalize(c, uv).Some? && Denormalize(c, Normalize(c, uv).value).Some?
    ensures var n, xy := ToNormalized(c, uv), Normalize(c, uv).value;
            && xy == Undistort(c.model, n).xy && ExitHolds(c.model, n, Undistort(c.model, n))
            && Defined(c.model, xy) && Denormalize(c, xy).value == ToPixels(c, Distorted(c.model, xy))
  {
    UndistortExit(c.model, ToNormalized(c, uv));
  }

  lemma {:induction false} SmallStepPixels(c: Camera, uv: Vec2, s: Solution, rho: real)
    requires Usable(c) && ExitHolds(c.model, ToNormalized(c, uv), s) && s.exit.SmallStep? && Defined(c.model, s.xy)
    requires rho >= 0.0 && SquaredNorm(s.exit.previous) <= rho * rho
    ensures Within(ToPixels(c, Distorted(c.model, s.xy)), uv, InPixels(c, SecondOrder(c.model, s.exit.previous, s.xy, rho)))
  {
    SmallStepResidual(c.model, ToNormalized(c, uv), s, rho);
    PixelsWithin(c, uv, Distorted(c.model, s.xy), SecondOrder(c.model, s.exit.previous, s.xy, rho));
  }

  /** And so bounds how far from itself a pixel accepted that way comes back. */
  lemma {:induction false} SmallStepRoundTrip(c: Camera, uv: Vec2, previous: Vec2, rho: real)
    requires Usable(c) && Normalize(c, uv).Some? && Undistort(c.model, ToNormalized(c, uv)).exit == SmallStep(previous)
    requires Denormalize(c, Normalize(c, uv).value).Some?
    requires rho >= 0.0 && SquaredNorm(previous) <= rho * rho
    ensures var xy, back := Normalize(c, uv).value, Denormalize(c, Normalize(c, uv).value).value;
            && Defined(c.model, previous) && Defined(c.model, xy)
            && Within(back, uv, InPixels(c, SecondOrder(c.model, previous, xy, rho)))
  {
    BothWays(c, uv);
    SmallStepPixels(c, uv, Undistort(c.model, ToNormalized(c, uv)), rho);
  }

  // ----- what a caller can tell from the lens and the radius -----

  /** Up to squared radius q the denominator of the radial factor keeps its distance from 0; the Brown model
      has none. */
  ghost predicate ClearOfPoles(m: Model, q: real, low: real) {
    low > 0.0 && forall r: real :: 0.0 <= r <= q ==> FarFromPole(m, r, low)
  }

  /** For instance, when its coefficients leave it above low by their size alone. */
  lemma {:induction false} ClearByCoefficients(m: Model, q: real, low: real)
    requires low > 0.0 && (m.Polynomial? ==> CubicMax(m.k4, m.k5, m.k6, q) <= 2.0 - low)
    ensures ClearOfPoles(m, q, low)
  {
    forall r: real | 0.0 <= r <= q ensures FarFromPole(m, r, low) {
      if m.Polynomial? {
        CubicBounded(m.k4, m.k5, m.k6, r, q);
      }
    }
  }

  /** The squared radius that the point before the last step cannot exceed. */
  function Reach(radius: real): real {
    (radius + PRECISION) * (radius + PRECISION)
  }

  /** A bound on the residual after a small step, for every point within the radius. */
  function LensBound(m: Model, radius: real, low: real): Vec2
    requires low > 0.0
  {
    var rho, max := radius + PRECISION, RadialMax(m, Reach(radius), low);
    Vec2(BoundAt(rho, PRECISION, max.halfRate, max.first, max.second, Tangential1(m), Tangential2(m)),
         BoundAt(rho, PRECISION, max.halfRate, max.first, max.second, Tangential2(m), Tangential1(m)))
  }

  lemma {:induction false} NormOfDifference(a: Vec2, b: Vec2, na: real, nb: real)
    requires na >= 0.0 && nb >= 0.0 && SquaredNorm(a) <= na * na && SquaredNorm(b) <= nb * nb
    ensures SquaredNorm(Minus(a, b)) <= (na + nb) * (na + nb)
  {
    ScalarProductBounded(a.x, a.y, b.x, b.y, na, nb);
    assert SquaredNorm(Minus(a, b)) == SquaredNorm(a) - 2.0 * (a.x * b.x + a.y * b.y) + SquaredNorm(b);
    assert (na + nb) * (na + nb) == na * na + 2.0 * (na * nb) + nb * nb;
  }

  lemma {:induction false} PreviousInReach(xy: Vec2, previous: Vec2, radius: real)
    requires radius >= 0.0 && SquaredNorm(xy) <= radius * radius && IsSmall(xy, previous)
    ensures SquaredNorm(previous) <= Reach(radius) && SquaredNorm(xy) <= Reach(radius)
  {
    NormOfDifference(xy, Minus(xy, previous), radius, PRECISION);
    assert Minus(xy, Minus(xy, previous)) == previous;
    TimesMonotone(0.0, radius, 2.0 * PRECISION);
    assert Reach(radius) == radius * radius + radius * (2.0 * PRECISION) + PRECISION * PRECISION;
  }

  lemma {:induction false} NormNotNegative(v: Vec2)
    ensures SquaredNorm(v) >= 0.0
  {
    SquareIsPositive(v.x);
    SquareIsPositive(v.y);
  }

  lemma {:induction false} SecondOrderInLens(m: Model, previous: Vec2, xy: Vec2, radius: real, low: real)
    requires radius >= 0.0 && SquaredNorm(previous) <= Reach(radius) && SquaredNorm(xy) <= Reach(radius)
    requires ClearOfPoles(m, Reach(radius), low)
    ensures Defined(m, previous) && Defined(m, xy)
    ensures var bound, lens := SecondOrder(m, previous, xy, radius + PRECISION), LensBound(m, radius, low);
            bound.x <= lens.x && bound.y <= lens.y
  {
    var r, s, rho, max := SquaredNorm(previous), SquaredNorm(xy), radius + PRECISION, RadialMax(m, Reach(radius), low);
    NormNotNegative(previous);
    NormNotNegative(xy);
    RadialStaysBounded(m, Reach(radius), low, r, s);
    var p1, p2 := Tangential1(m), Tangential2(m);
    BoundGrows(rho, PRECISION, RadialRate(m, r) / 2.0, RadialFirst(m, r, s), RadialSecond(m, r, s), max, p1, p2);
    BoundGrows(rho, PRECISION, RadialRate(m, r) / 2.0, RadialFirst(m, r, s), RadialSecond(m, r, s), max, p2, p1);
  }

  lemma {:induction false} WithinWider(a: Vec2, b: Vec2, bound: Vec2, wider: Vec2)
    requires Within(a, b, bound) && bound.x <= wider.x && bound.y <= wider.y
    ensures Within(a, b, wider)
  {
  }

  lemma {:induction false} ResidualFromReach(m: Model, target: Vec2, s: Solution, radius: real)
    requires ExitHolds(m, target, s) && s.exit.SmallStep? && Defined(m, s.xy)
    requires radius >= 0.0 && SquaredNorm(s.exit.previous) <= Reach(radius)
    ensures Within(Distorted(m, s.xy), target, SecondOrder(m, s.exit.previous, s.xy, radius + PRECISION))
  {
    SmallStepResidual(m, target, s, radius + PRECISION);
  }

  /** A point accepted on a small step within the radius: distort is defined there, and its residual is within
      the bound of the lens. */
  lemma {:induction false} SmallStepInLens(m: Model, target: Vec2, s: Solution, radius: real, low: real)
    requires ExitHolds(m, target, s) && s.exit.SmallStep?
    requires radius >= 0.0 && SquaredNorm(s.xy) <= radius * radius && ClearOfPoles(m, Reach(radius), low)
    ensures Defined(m, s.xy) && Within(Distorted(m, s.xy), target, LensBound(m, radius, low))
  {
    PreviousInReach(s.xy, s.exit.previous, radius);
    SecondOrderInLens(m, s.exit.previous, s.xy, radius, low);
    ResidualFromReach(m, target, s, radius);
    WithinWider(Distorted(m, s.xy), target, SecondOrder(m, s.exit.previous, s.xy, radius + PRECISION),
                LensBound(m, radius, low));
  }

  lemma {:induction false} WithinNorm(a: Vec2, b: Vec2, bound: Vec2)
    requires Within(a, b, bound)
    ensures SquaredNorm(Minus(a, b)) <= SquaredNorm(bound)
  {
    TimesBounded(a.x - b.x, bound.x, a.x - b.x, bound.x);
    TimesBounded(a.y - b.y, bound.y, a.y - b.y, bound.y);
  }

  /** The lens is mild enough for the radius: whatever the loop accepts there passes the residual test. */
  ghost predicate Accurate(m: Model, radius: real, low: real) {
    radius >= 0.0 && ClearOfPoles(m, Reach(radius), low) && SquaredNorm(LensBound(m, radius, low)) <= EPS * EPS
  }

  lemma {:induction false} NormWithin(a: Vec2, b: Vec2, norm: real)
    requires norm >= 0.0 && SquaredNorm(Minus(a, b)) <= norm * norm
    ensures Within(a, b, Vec2(norm, norm))
  {
    PartBounded(a.x - b.x, a.y - b.y, norm);
  }

  lemma {:induction false} SolvesWithin(m: Model, target: Vec2, xy: Vec2)
    requires Solves(m, target, xy)
    ensures Within(Distorted(m, xy), target, Vec2(EPS, EPS))
  {
    NormWithin(Distorted(m, xy), target, EPS);
  }

  lemma {:induction false} WithinSolves(m: Model, target: Vec2, xy: Vec2, bound: Vec2)
    requires Defined(m, xy) && Within(Distorted(m, xy), target, bound) && SquaredNorm(bound) <= EPS * EPS
    ensures Solves(m, target, xy)
  {
    WithinNorm(Distorted(m, xy), target, bound);
  }

  lemma {:induction false} SmallStepSolves(m: Model, target: Vec2, s: Solution, radius: real, low: real)
    requires ExitHolds(m, target, s) && s.exit.SmallStep?
    requires Accurate(m, radius, low) && SquaredNorm(s.xy) <= radius * radius
    ensures Solves(m, target, s.xy)
  {
    SmallStepInLens(m, target, s, radius, low);
    WithinSolves(m, target, s.xy, LensBound(m, radius, low));
  }

  lemma {:induction false} AcceptedSolves(m: Model, target: Vec2, radius: real, low: real)
    requires Accurate(m, radius, low)
    requires Accepted(Undistort(m, target)) && SquaredNorm(Undistort(m, target).xy) <= radius * radius
    ensures Solves(m, target, Undistort(m, target).xy)
  {
    UndistortExit(m, target);
    if Undistort(m, target).exit.SmallStep? {
      SmallStepSolves(m, target, Undistort(m, target), radius, low);
    }
  }

  /** Every point normalizePoint returns for such a lens is a solution, however the loop ended. */
  lemma {:induction false} AccurateSolves(c: Camera, uv: Vec2, radius: real, low: real)
    requires Usable(c) && c.maxXy2 <= radius * radius && Accurate(c.model, radius, low)
    requires Normalize(c, uv).Some?
    ensures Solves(c.model, ToNormalized(c, uv), Normalize(c, uv).value)
  {
    AcceptedSolves(c.model, ToNormalized(c, uv), radius, low);
  }

  /** The larger of what the two exits leave. */
  function Worst(bound: Vec2): Vec2 {
    Vec2(Max(EPS, bound.x), Max(EPS, bound.y))
  }

  lemma {:induction false} AcceptedWithin(m: Model, target: Vec2, radius: real, low: real)
    requires radius >= 0.0 && ClearOfPoles(m, Reach(radius), low)
    requires Accepted(Undistort(m, target)) && SquaredNorm(Undistort(m, target).xy) <= radius * radius
    ensures Within(Distorted(m, Undistort(m, target).xy), target, Worst(LensBound(m, radius, low)))
  {
    UndistortExit(m, target);
    if Undistort(m, target).exit.SmallStep? {
      SmallStepInLens(m, target, Undistort(m, target), radius, low);
    } else {
      SolvesWithin(m, target, Undistort(m, target).xy);
    }
  }

  /** For any lens clear of its poles: every pixel that can be normalized and denormalized comes back to within
      focal times the larger of EPS and the bound of the lens. */
  lemma {:induction false} EveryPixelComesBack(c: Camera, uv: Vec2, radius: real, low: real)
    requires Usable(c) && radius >= 0.0 && c.maxXy2 <= radius * radius && ClearOfPoles(c.model, Reach(radius), low)
    requires Normalize(c, uv).Some? && Denormalize(c, Normalize(c, uv).value).Some?
    ensures Within(Denormalize(c, Normalize(c, uv).value).value, uv, InPixels(c, Worst(LensBound(c.model, radius, low))))
  {
    BothWays(c, uv);
    AcceptedWithin(c.model, ToNormalized(c, uv), radius, low);
    PixelsWithin(c, uv, Distorted(c.model, Normalize(c, uv).value), Worst(LensBound(c.model, radius, low)));
  }

  // ----- a family of lenses for which that holds -----

  predicate Mild(m: Model) {
    m.Brown? && Abs(m.k1) <= 0.5 && Abs(m.k2) <= 0.5 && Abs(m.k3) <= 0.5 && Abs(m.p1) <= 0.5 && Abs(m.p2) <= 0.5
  }

  lemma {:induction false} MildReach(radius: real)
    requires 0.0 <= radius <= 2.0
    ensures 0.0 <= Reach(radius) <= 4.5
  {
    TimesBounded(radius + PRECISION, 2.1, radius + PRECISION, 2.1);
    PositiveOrZero(radius + PRECISION, radius + PRECISION);
  }

  lemma {:induction false} SmallSquares(bound: Vec2)
    requires 0.0 <= bound.x <= 0.00000006 && 0.0 <= bound.y <= 0.00000006
    ensures SquaredNorm(bound) <= EPS * EPS
  {
    TimesBounded(bound.x, 0.00000006, bound.x, 0.00000006);
    TimesBounded(bound.y, 0.00000006, bound.y, 0.00000006);
  }

  /** Every Brown lens with no coefficient above one half, used up to radius 2, is accurate. */
  lemma {:induction false} MildIsAccurate(m: Model, radius: real)
    requires Mild(m) && 0.0 <= radius <= 2.0
    ensures Accurate(m, radius, 1.0)
  {
    var max := RadialMax(m, Reach(radius), 1.0);
    MildReach(radius);
    MildSlope(m.k1, m.k2, m.k3, Reach(radius));
    MildFirst(m.k1, m.k2, m.k3, Reach(radius));
    MildSecond(m.k2, m.k3, Reach(radius));
    MildBound(radius + PRECISION, max.halfRate, max.first, max.second, m.p1, m.p2);
    MildBound(radius + PRECISION, max.halfRate, max.first, max.second, m.p2, m.p1);
    SmallSquares(LensBound(m, radius, 1.0));
  }

  // ----- when the way back is open -----

  /** A solution for a target inside the distorted radius by EPS distorts to a point inside that radius. */
  lemma {:induction false} SolutionComesBack(c: Camera, n: Vec2, xy: Vec2, norm: real)
    requires Usable(c) && Solves(c.model, n, xy) && SquaredNorm(xy) <= c.maxXy2
    requires norm >= 0.0 && SquaredNorm(n) <= norm * norm && (norm + EPS) * (norm + EPS) <= c.maxUv2
    ensures Denormalize(c, xy).Some?
  {
    var e := Distorted(c.model, xy);
    assert SquaredNorm(Minus(n, e)) == SquaredNorm(Minus(e, n));
    NormOfDifference(n, Minus(n, e), norm, EPS);
    assert Minus(n, Minus(n, e)) == e;
  }

  /** Found through the residual test, a pixel whose normalized point is inside the distorted radius by EPS
      always has a way back. */
  lemma {:induction false} WayBackOpen(c: Camera, uv: Vec2, norm: real)
    requires Usable(c) && Normalize(c, uv).Some? && Undistort(c.model, ToNormalized(c, uv)).exit.Residual?
    requires norm >= 0.0 && SquaredNorm(ToNormalized(c, uv)) <= norm * norm && (norm + EPS) * (norm + EPS) <= c.maxUv2
    ensures Denormalize(c, Normalize(c, uv).value).Some?
  {
    UndistortExit(c.model, ToNormalized(c, uv));
    SolutionComesBack(c, ToNormalized(c, uv), Normalize(c, uv).value, norm);
  }

  lemma {:induction false} SolvedRoundTrip(c: Camera, uv: Vec2, norm: real)
    requires Usable(c) && Normalize(c, uv).Some? && Solves(c.model, ToNormalized(c, uv), Normalize(c, uv).value)
    requires norm >= 0.0 && SquaredNorm(ToNormalized(c, uv)) <= norm * norm && (norm + EPS) * (norm + EPS) <= c.maxUv2
    ensures var back := Denormalize(c, Normalize(c, uv).value);
            back.Some? && Within(back.value, uv, InPixels(c, Vec2(EPS, EPS)))
  {
    var n, xy := ToNormalized(c, uv), Normalize(c, uv).value;
    SolutionComesBack(c, n, xy, norm);
    SolvesWithin(c.model, n, xy);
    PixelsWithin(c, uv, Distorted(c.model, xy), Vec2(EPS, EPS));
  }

  /** The whole round trip of an accurate lens: such a pixel, once normalized, comes back to within focal times
      EPS, however the loop ended. */
  lemma {:induction false} AccurateRoundTrip(c: Camera, uv: Vec2, radius: real, low: real, norm: real)
    requires Usable(c) && c.maxXy2 <= radius * radius && Accurate(c.model, radius, low) && Normalize(c, uv).Some?
    requires norm >= 0.0 && SquaredNorm(ToNormalized(c, uv)) <= norm * norm && (norm + EPS) * (norm + EPS) <= c.maxUv2
    ensures var back := Denormalize(c, Normalize(c, uv).value);
            back.Some? && Within(back.value, uv, InPixels(c, Vec2(EPS, EPS)))
  {
    AccurateSolves(c, uv, radius, low);
    SolvedRoundTrip(c, uv, norm);
  }

  // ----- a point accepted that is no solution -----

  function Steep(): Model {
    Brown(82500000000.0, 0.0, 0.0, 0.0, 0.0)
  }

  lemma {:induction false} SteepStep()
    ensures NewtonStep(Steep(), Vec2(0.00002, 0.0), Vec2(0.00002, 0.0)) == Moved(Vec2(0.0000134, 0.0))
  {
    var m, target := Steep(), Vec2(0.00002, 0.0);
    assert SquaredNorm(target) == 0.0000000004;
    assert BrownRadial(m.k1, 0.0, 0.0, 0.0000000004) == 34.0;
    assert Distorted(m, target) == Vec2(0.00068, 0.0);
    assert Jacobian(m, target) == Matrix2(100.0, 0.0, 0.0, 34.0);
  }

  lemma {:induction false} SteepResidual()
    ensures Distorted(Steep(), Vec2(0.0000134, 0.0)).x == 0.00021190358
  {
    assert BrownRadial(Steep().k1, 0.0, 0.0, 0.00000000017956) == 15.8137;
  }

  lemma {:induction false} FirstStepAccepted(step: Vec2 -> Step, start: Vec2, next: Vec2)
    requires step(start) == Moved(next) && IsSmall(next, start)
    ensures Search(step, start, 0) == Solution(next, 1, SmallStep(start))
  {
  }

  lemma {:induction false} FarFrom(m: Model, target: Vec2, xy: Vec2)
    requires Distorted(m, xy).x - target.x >= 0.0001
    ensures !Solves(m, target, xy)
  {
    var f := Minus(Distorted(m, xy), target);
    TimesMonotone(0.0001, f.x, 0.0001);
    TimesMonotone(0.0001, f.x, f.x);
    SquareIsPositive(f.y);
  }

  lemma {:induction false} SteepIsSmall()
    ensures IsSmall(Vec2(0.0000134, 0.0), Vec2(0.00002, 0.0))
  {
    assert Minus(Vec2(0.0000134, 0.0), Vec2(0.00002, 0.0)) == Vec2(-0.0000066, 0.0);
    assert SquaredNorm(Vec2(-0.0000066, 0.0)) == 0.00000000004356;
    assert PRECISION * PRECISION == 0.0000000001;
  }

  lemma {:induction false} AcceptedFar(m: Model, target: Vec2, next: Vec2)
    requires !m.Pinhole? && NewtonStep(m, target, target) == Moved(next) && IsSmall(next, target)
    requires Distorted(m, next).x - target.x >= 0.0001
    ensures Accepted(Undistort(m, target)) && !Solves(m, target, Undistort(m, target).xy)
  {
    FirstStepAccepted(Stepper(m, target), target, next);
    FarFrom(m, target, next);
  }

  /** The first step is small, the point it leads to is returned, and its residual is far above the test. */
  lemma {:induction false} AcceptedButNotSolved()
    ensures var s := Undistort(Steep(), Vec2(0.00002, 0.0));
            Accepted(s) && !Solves(Steep(), Vec2(0.00002, 0.0), s.xy)
  {
    SteepStep();
    SteepIsSmall();
    SteepResidual();
    AcceptedFar(Steep(), Vec2(0.00002, 0.0), Vec2(0.0000134, 0.0));
  }
}
