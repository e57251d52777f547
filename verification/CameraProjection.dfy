/** Pixels to rays and back (libs/camera/camera.cpp): the guarded conversions, and the Newton iteration
    that inverts the distortion. */
module CameraProjection {
  import opened Wrappers
  import opened Reals
  import opened Derivative
  import opened CameraModels

  const EPS := 0.00000011920928955078125  // 2^-23, the float epsilon
  const PRECISION := 0.00001
  const MAX_STEPS: nat := 10
  const MIN_DETERMINANT := 0.00001  // below this Eigen's float inverse reports a singular matrix
  const FLOAT_MAX := 340282346638528859811704183484516925440.0

  function Minus(a: Vec2, b: Vec2): Vec2 {
    Vec2(a.x - b.x, a.y - b.y)
  }

  function Apply(j: Matrix2, v: Vec2): Vec2 {
    Vec2(Row0(j, v), Row1(j, v))
  }

  function Determinant(j: Matrix2): real {
    j.m00 * j.m11 - j.m01 * j.m10
  }

  function InverseMatrix(j: Matrix2): Matrix2
    requires Determinant(j) != 0.0
  {
    var d := Determinant(j);
    Matrix2(j.m11 / d, -j.m01 / d, -j.m10 / d, j.m00 / d)
  }

  // ----- the Newton iteration -----

  datatype Step = Solved | Stuck | Moved(next: Vec2)

  /** One round of the loop: test the residual, check the Jacobian, step. */
  function NewtonStep(m: Model, target: Vec2, xy: Vec2): Step {
    match Distort(m, xy)
    case None => Stuck
    case Some(estimate) =>
      var f := Minus(estimate, target);
      if SquaredNorm(f) <= EPS * EPS then Solved
      else
        var j := Jacobian(m, xy);
        if Abs(Determinant(j)) <= MIN_DETERMINANT then Stuck
        else Moved(Minus(xy, Apply(InverseMatrix(j), f)))
  }

  datatype Exit = Residual | SmallStep(previous: Vec2) | Singular | Exhausted

  datatype Solution = Solution(xy: Vec2, steps: nat, exit: Exit)

  predicate IsSmall(a: Vec2, b: Vec2) {
    SquaredNorm(Minus(a, b)) <= PRECISION * PRECISION
  }

  /** The loop from a given point and step count. A tenth step is never accepted, however small. */
  function Search(step: Vec2 -> Step, xy: Vec2, steps: nat): Solution
    requires steps <= MAX_STEPS
    decreases MAX_STEPS - steps
  {
    if steps == MAX_STEPS then Solution(xy, steps, Exhausted)
    else
      match step(xy)
      case Solved => Solution(xy, steps, Residual)
      case Stuck => Solution(xy, steps, Singular)
      case Moved(next) =>
        if IsSmall(next, xy) then Solution(next, steps + 1, if steps + 1 < MAX_STEPS then SmallStep(xy) else Exhausted)
        else Search(step, next, steps + 1)
  }

  predicate Accepted(s: Solution) {
    s.exit.Residual? || s.exit.SmallStep?
  }

  // ----- the same on the points visited -----

  /** A move by more than the precision. */
  predicate LongMove(a: Vec2, b: Vec2) {
    (b.x - a.x) * (b.x - a.x) + (b.y - a.y) * (b.y - a.y) > 0.00001 * 0.00001
  }

  /** Points visited one after the other, each reached from the one before by one round and a long move. */
  ghost predicate Walk(step: Vec2 -> Step, p: seq<Vec2>) {
    p != [] && forall i :: 0 <= i < |p| - 1 ==> step(p[i]) == Moved(p[i + 1]) && LongMove(p[i], p[i + 1])
  }

  /** Where the loop goes from the last of these points. */
  ghost predicate EndsAt(step: Vec2 -> Step, p: seq<Vec2>, ok: bool, xy: Vec2)
    requires p != []
  {
    var n := |p| - 1;
    if n >= 10 then n == 10 && !ok && xy == p[10]
    else
      match step(p[n])
      case Solved => ok && xy == p[n]
      case Stuck => !ok && xy == p[n]
      case Moved(next) => !LongMove(p[n], next) && xy == next && (ok <==> n + 1 < 10)
  }

  lemma {:induction false} LongUnlessSmall(a: Vec2, b: Vec2)
    ensures LongMove(a, b) <==> !IsSmall(b, a)
  {
  }

  /** The loop visits the points of any such walk. From a point that is not the last of ten moves it goes on
      after every move that is not small. */
  lemma {:induction false} SearchAlong(step: Vec2 -> Step, p: seq<Vec2>)
    requires Walk(step, p) && |p| <= 11
    ensures var n, s := |p| - 1, Search(step, p[0], 0);
            if n == 10 then s == Solution(p[10], 10, Exhausted)
            else
              match step(p[n])
              case Solved => s == Solution(p[n], n, Residual)
              case Stuck => s == Solution(p[n], n, Singular)
              case Moved(next) =>
                if LongMove(p[n], next) then s == Search(step, next, n + 1)
                else s == Solution(next, n + 1, if n + 1 < 10 then SmallStep(p[n]) else Exhausted)
  {
    var n := |p| - 1;
    if n > 0 {
      SearchAlong(step, p[..n]);
      assert step(p[n - 1]) == Moved(p[n]);
    }
    if n < 10 && step(p[n]).Moved? {
      LongUnlessSmall(p[n], step(p[n]).next);
    }
  }

  lemma {:induction false} WalkOn(step: Vec2 -> Step, p: seq<Vec2>, next: Vec2)
    requires Walk(step, p) && step(p[|p| - 1]) == Moved(next) && LongMove(p[|p| - 1], next)
    ensures Walk(step, p + [next])
  {
  }

  /** And one of these walks leads to its end. */
  lemma {:induction false} SearchWalks(step: Vec2 -> Step, p: seq<Vec2>) returns (q: seq<Vec2>)
    requires Walk(step, p) && |p| <= 11
    ensures Walk(step, q) && q[0] == p[0]
    ensures var s := Search(step, p[0], 0); EndsAt(step, q, Accepted(s), s.xy)
    decreases 11 - |p|
  {
    SearchAlong(step, p);
    var n := |p| - 1;
    if n < 10 && step(p[n]).Moved? && LongMove(p[n], step(p[n]).next) {
      WalkOn(step, p, step(p[n]).next);
      q := SearchWalks(step, p + [step(p[n]).next]);
    } else {
      q := p;
    }
  }

  /** What the loop returns: where the walk from the start ends. */
  ghost predicate Returns(step: Vec2 -> Step, start: Vec2, ok: bool, xy: Vec2) {
    exists p: seq<Vec2> :: Walk(step, p) && p[0] == start && EndsAt(step, p, ok, xy)
  }

  lemma {:induction false} SearchReturns(step: Vec2 -> Step, start: Vec2)
    ensures var s := Search(step, start, 0); Returns(step, start, Accepted(s), s.xy)
  {
    var p := SearchWalks(step, [start]);
  }

  /** It runs out of steps exactly when ten moves can be made of which none of the first nine is small. */
  lemma {:induction false} ExhaustedIff(step: Vec2 -> Step, start: Vec2)
    ensures Search(step, start, 0).exit.Exhausted? <==>
            exists p: seq<Vec2>, last: Vec2 :: |p| == 10 && p[0] == start && Walk(step, p) && step(p[9]) == Moved(last)
  {
    if p: seq<Vec2>, last: Vec2 :| |p| == 10 && p[0] == start && Walk(step, p) && step(p[9]) == Moved(last) {
      SearchAlong(step, p);
    }
    if Search(step, start, 0).exit.Exhausted? {
      var q := SearchWalks(step, [start]);
      SearchAlong(step, q);
      if |q| == 11 {
        assert step(q[9]) == Moved(q[10]);
        WalkBack(step, q);
        assert q[..10][0] == start && step(q[..10][9]) == Moved(q[10]);
      } else {
        assert |q| == 10 && step(q[9]) == Moved(step(q[9]).next);
      }
    }
  }

  lemma {:induction false} WalkBack(step: Vec2 -> Step, p: seq<Vec2>)
    requires Walk(step, p) && |p| > 1
    ensures Walk(step, p[..|p| - 1])
  {
  }

  /** The loop itself; what a round computes is the model's business. */
  method Iterate(step: Vec2 -> Step, start: Vec2) returns (ok: bool, xy: Vec2)
    ensures var s := Search(step, start, 0); xy == s.xy && ok == Accepted(s)
    ensures Returns(step, start, ok, xy)
  {
    ghost var s := Search(step, start, 0);
    SearchReturns(step, start);
    xy := start;
    var steps := 0;
    var previousStep2 := FLOAT_MAX;  // anything above the precision
    while previousStep2 > PRECISION * PRECISION && steps < MAX_STEPS
      invariant steps <= MAX_STEPS
      invariant previousStep2 > PRECISION * PRECISION ==> s == Search(step, xy, steps)
      invariant previousStep2 <= PRECISION * PRECISION ==> xy == s.xy && Accepted(s) == (steps < MAX_STEPS)
      decreases MAX_STEPS - steps
    {
      match step(xy)
      case Solved =>
        return true, xy;
      case Stuck =>
        return false, xy;
      case Moved(next) =>
        previousStep2 := SquaredNorm(Minus(next, xy));
        xy := next;
        steps := steps + 1;
    }
    ok := steps < MAX_STEPS;
  }

  function Stepper(m: Model, target: Vec2): Vec2 -> Step {
    (xy: Vec2) => NewtonStep(m, target, xy)
  }

  // what one round does, said of the lens

  /** A distorted point within the float epsilon of the target. */
  predicate Hits(d: Vec2, target: Vec2) {
    (d.x - target.x) * (d.x - target.x) + (d.y - target.y) * (d.y - target.y)
    <= 0.00000011920928955078125 * 0.00000011920928955078125
  }

  /** A determinant of at most 0.00001 in size. */
  predicate Flat(j: Matrix2) {
    -0.00001 <= j.m00 * j.m11 - j.m01 * j.m10 <= 0.00001
  }

  /** The way from a to b solves the linear equation with this matrix, for what d lacks to the target. */
  predicate SolvesLinear(j: Matrix2, d: Vec2, target: Vec2, a: Vec2, b: Vec2) {
    && j.m00 * (b.x - a.x) + j.m01 * (b.y - a.y) == target.x - d.x
    && j.m10 * (b.x - a.x) + j.m11 * (b.y - a.y) == target.y - d.y
  }

  lemma {:induction false} HitsIff(d: Vec2, target: Vec2)
    ensures Hits(d, target) <==> SquaredNorm(Minus(d, target)) <= EPS * EPS
  {
  }

  lemma {:induction false} FlatIff(j: Matrix2)
    ensures Flat(j) <==> Abs(Determinant(j)) <= MIN_DETERMINANT
  {
  }

  lemma {:induction false} LinearUnique(m00: real, m01: real, m10: real, m11: real, x: real, y: real)
    requires m00 * x + m01 * y == 0.0 && m10 * x + m11 * y == 0.0 && m00 * m11 - m01 * m10 != 0.0
    ensures x == 0.0 && y == 0.0
  {
    var det := m00 * m11 - m01 * m10;
    assert det * x == m11 * (m00 * x + m01 * y) - m01 * (m10 * x + m11 * y);
    assert det * y == m00 * (m10 * x + m11 * y) - m10 * (m00 * x + m01 * y);
  }

  lemma {:induction false} LinearDifference(m: real, n: real, a: Vec2, b: Vec2, c: Vec2, r: real)
    requires m * (b.x - a.x) + n * (b.y - a.y) == r && m * (c.x - a.x) + n * (c.y - a.y) == r
    ensures m * (b.x - c.x) + n * (b.y - c.y) == 0.0
  {
  }

  lemma {:induction false} SolvesOnce(j: Matrix2, d: Vec2, target: Vec2, a: Vec2, b: Vec2, c: Vec2)
    requires !Flat(j) && SolvesLinear(j, d, target, a, b) && SolvesLinear(j, d, target, a, c)
    ensures b == c
  {
    LinearDifference(j.m00, j.m01, a, b, c, target.x - d.x);
    LinearDifference(j.m10, j.m11, a, b, c, target.y - d.y);
    LinearUnique(j.m00, j.m01, j.m10, j.m11, b.x - c.x, b.y - c.y);
  }

  lemma {:induction false} MoveSolves(j: Matrix2, d: Vec2, target: Vec2, a: Vec2)
    requires Determinant(j) != 0.0
    ensures SolvesLinear(j, d, target, a, Minus(a, Apply(InverseMatrix(j), Minus(d, target))))
  {
    var b := Minus(a, Apply(InverseMatrix(j), Minus(d, target)));
    StepSolves(j, d, target, a);
    assert Row0(j, Minus(b, a)) == Minus(target, d).x && Row1(j, Minus(b, a)) == Minus(target, d).y;
  }

  /** What one round does: it ends well exactly at a hit, badly exactly where distort is undefined or the
      Jacobian flat, and otherwise moves to the one solution of the linear equation. */
  lemma {:induction false} RoundMeaning(m: Model, target: Vec2, a: Vec2, b: Vec2)
    ensures NewtonStep(m, target, a) == Solved <==> Defined(m, a) && Hits(Distorted(m, a), target)
    ensures NewtonStep(m, target, a) == Stuck <==>
            !Defined(m, a) || (!Hits(Distorted(m, a), target) && Flat(Jacobian(m, a)))
    ensures NewtonStep(m, target, a) == Moved(b) <==>
            && Defined(m, a) && !Hits(Distorted(m, a), target) && !Flat(Jacobian(m, a))
            && SolvesLinear(Jacobian(m, a), Distorted(m, a), target, a, b)
  {
    if Defined(m, a) {
      var d, j := Distorted(m, a), Jacobian(m, a);
      HitsIff(d, target);
      FlatIff(j);
      if !Flat(j) {
        var next := Minus(a, Apply(InverseMatrix(j), Minus(d, target)));
        MoveSolves(j, d, target, a);
        if SolvesLinear(j, d, target, a, b) {
          SolvesOnce(j, d, target, a, b, next);
        }
      }
    }
  }

  function Undistort(m: Model, normalizedUv: Vec2): Solution {
    if m.Pinhole? then Solution(normalizedUv, 0, Residual) else Search(Stepper(m, normalizedUv), normalizedUv, 0)
  }

  /** What undistort returns: the point itself for a pinhole, otherwise where the walk by rounds from it ends. */
  ghost predicate Undistorts(m: Model, uv: Vec2, ok: bool, xy: Vec2) {
    if m.Pinhole? then ok && xy == uv
    else Returns(Stepper(m, uv), uv, ok, xy)
  }

  lemma {:induction false} UndistortReturns(m: Model, uv: Vec2)
    ensures var s := Undistort(m, uv); Undistorts(m, uv, Accepted(s), s.xy)
  {
    if !m.Pinhole? {
      SearchReturns(Stepper(m, uv), uv);
    }
  }

  method UndistortPoint(m: Model, normalizedUv: Vec2) returns (ok: bool, xy: Vec2)
    ensures var s := Undistort(m, normalizedUv); xy == s.xy && ok == Accepted(s)
    ensures Undistorts(m, normalizedUv, ok, xy)
  {
    UndistortReturns(m, normalizedUv);
    if m.Pinhole? {
      return true, normalizedUv;
    }
    ok, xy := Iterate(Stepper(m, normalizedUv), normalizedUv);
  }

  // ----- what the ways out of the loop guarantee -----

  /** Left through the residual test: the point distorts to within EPS of the target. */
  ghost predicate Solves(m: Model, target: Vec2, xy: Vec2) {
    Defined(m, xy) && SquaredNorm(Minus(Distorted(m, xy), target)) <= EPS * EPS
  }

  /** The step from previous to xy solves the linearised equation. */
  ghost predicate IsNewtonStep(m: Model, target: Vec2, previous: Vec2, xy: Vec2) {
    && Defined(m, previous)
    && Apply(Jacobian(m, previous), Minus(xy, previous)) == Minus(target, Distorted(m, previous))
  }

  lemma {:induction false} InverseUndoes(j: Matrix2, v: Vec2)
    requires Determinant(j) != 0.0
    ensures Apply(j, Apply(InverseMatrix(j), v)) == v
  {
  }

  lemma {:induction false} StepSolves(j: Matrix2, estimate: Vec2, target: Vec2, xy: Vec2)
    requires Determinant(j) != 0.0
    ensures var next := Minus(xy, Apply(InverseMatrix(j), Minus(estimate, target)));
            Apply(j, Minus(next, xy)) == Minus(target, estimate)
  {
    var f := Minus(estimate, target);
    var w := Apply(InverseMatrix(j), f);
    InverseUndoes(j, f);
    ApplyBack(j, xy, w);
  }

  lemma {:induction false} ApplyBack(j: Matrix2, xy: Vec2, w: Vec2)
    ensures Apply(j, Minus(Minus(xy, w), xy)) == Minus(Vec2(0.0, 0.0), Apply(j, w))
  {
  }

  lemma {:induction false} MovedIsNewton(m: Model, target: Vec2, xy: Vec2)
    ensures NewtonStep(m, target, xy).Moved? ==> IsNewtonStep(m, target, xy, NewtonStep(m, target, xy).next)
  {
    if NewtonStep(m, target, xy).Moved? {
      StepSolves(Jacobian(m, xy), Distorted(m, xy), target, xy);
    }
  }

  /** Along such a step both coordinates of distort start out changing at exactly the rate that would reach
      the target after the whole step. */
  lemma {:induction false} NewtonHeadsForTarget(m: Model, target: Vec2, previous: Vec2, xy: Vec2)
    requires IsNewtonStep(m, target, previous, xy)
    ensures HasDerivative(AlongX(m, previous, Minus(xy, previous)), target.x - Distorted(m, previous).x)
    ensures HasDerivative(AlongY(m, previous, Minus(xy, previous)), target.y - Distorted(m, previous).y)
  {
    JacobianIsDerivative(m, previous, Minus(xy, previous));
  }

  ghost predicate ExitHolds(m: Model, target: Vec2, s: Solution) {
    && s.steps <= MAX_STEPS
    && match s.exit
       case Residual => Solves(m, target, s.xy) && s.steps < MAX_STEPS
       case SmallStep(previous) =>
         IsSmall(s.xy, previous) && IsNewtonStep(m, target, previous, s.xy) && 0 < s.steps < MAX_STEPS
       case Singular => s.steps < MAX_STEPS && NewtonStep(m, target, s.xy) == Stuck
       case Exhausted => s.steps == MAX_STEPS
  }

  ghost predicate LastStep(step: Vec2 -> Step, s: Solution) {
    && s.steps <= MAX_STEPS
    && match s.exit
       case Residual => step(s.xy) == Solved && s.steps < MAX_STEPS
       case SmallStep(previous) => step(previous) == Moved(s.xy) && IsSmall(s.xy, previous) && 0 < s.steps < MAX_STEPS
       case Singular => step(s.xy) == Stuck && s.steps < MAX_STEPS
       case Exhausted => s.steps == MAX_STEPS
  }

  lemma {:induction false} SearchExit(step: Vec2 -> Step, xy: Vec2, steps: nat)
    requires steps <= MAX_STEPS
    ensures LastStep(step, Search(step, xy, steps))
    decreases MAX_STEPS - steps
  {
    if steps < MAX_STEPS && step(xy).Moved? {
      SearchExit(step, step(xy).next, steps + 1);
    }
  }

  lemma {:induction false} UndistortExit(m: Model, target: Vec2)
    ensures ExitHolds(m, target, Undistort(m, target))
  {
    var s := Undistort(m, target);
    if !m.Pinhole? {
      SearchExit(Stepper(m, target), target, 0);
      if s.exit.SmallStep? {
        MovedIsNewton(m, target, s.exit.previous);
      }
    }
  }

  // ----- how far off a point accepted for its small step can be -----

  function Size2(j: Matrix2): real {
    j.m00 * j.m00 + j.m01 * j.m01 + (j.m10 * j.m10 + j.m11 * j.m11)
  }

  lemma {:induction false} Cauchy(a: real, b: real, x: real, y: real)
    ensures (a * x + b * y) * (a * x + b * y) <= (a * a + b * b) * (x * x + y * y)
  {
    assert (a * a + b * b) * (x * x + y * y) - (a * x + b * y) * (a * x + b * y) == (a * y - b * x) * (a * y - b * x);
  }

  lemma {:induction false} ApplyBounded(j: Matrix2, v: Vec2)
    ensures SquaredNorm(Apply(j, v)) <= Size2(j) * SquaredNorm(v)
  {
    Cauchy(j.m00, j.m01, v.x, v.y);
    Cauchy(j.m10, j.m11, v.x, v.y);
  }

  lemma {:induction false} ApplySmall(j: Matrix2, v: Vec2, bound: real)
    requires SquaredNorm(v) <= bound
    ensures SquaredNorm(Apply(j, v)) <= Size2(j) * bound
  {
    ApplyBounded(j, v);
    Size2Positive(j);
    TimesMonotone(SquaredNorm(v), bound, Size2(j));
  }

  lemma {:induction false} Size2Positive(j: Matrix2)
    ensures Size2(j) >= 0.0
  {
    SquareIsPositive(j.m00);
    SquareIsPositive(j.m01);
    SquareIsPositive(j.m10);
    SquareIsPositive(j.m11);
  }

  /** Leaving on a small step bounds the residual of the point before that step, by the size of the Jacobian
      there times PRECISION. */
  lemma {:induction false} SmallStepBound(m: Model, target: Vec2, s: Solution)
    requires ExitHolds(m, target, s) && s.exit.SmallStep?
    ensures var before := s.exit.previous;
            SquaredNorm(Minus(target, Distorted(m, before))) <= Size2(Jacobian(m, before)) * (PRECISION * PRECISION)
  {
    ApplySmall(Jacobian(m, s.exit.previous), Minus(s.xy, s.exit.previous), PRECISION * PRECISION);
  }

  // ----- the guarded conversions -----

  datatype Camera = Camera(model: Model, focal: Vec2, principal: Vec2, maxUv2: real, maxXy2: real)

  /** The constructor throws on bad intrinsics: no camera. */
  function Create(model: Model, resolution: Vec2, focal: Vec2, principal: Vec2, maxUv: real, maxXy: real): (r: Option<Camera>)
    ensures r.Some? <==> focal.x > EPS && focal.y > EPS && resolution.x >= 0.0 && resolution.y >= 0.0
    ensures r.Some? ==> Usable(r.value)
    ensures r.Some? ==> r.value == Camera(model, focal, principal, maxUv * maxUv, maxXy * maxXy)
  {
    var isInvertible := Abs(focal.x) > EPS && Abs(focal.y) > EPS;
    if !isInvertible || focal.x < 0.0 || focal.y < 0.0 || resolution.x < 0.0 || resolution.y < 0.0 then None
    else
      Some(Camera(model, focal, principal, maxUv * maxUv, maxXy * maxXy))
  }

  predicate Usable(c: Camera) {
    c.focal.x > EPS && c.focal.y > EPS && c.maxUv2 >= 0.0 && c.maxXy2 >= 0.0
  }

  function ToNormalized(c: Camera, uv: Vec2): Vec2
    requires Usable(c)
  {
    Vec2((uv.x - c.principal.x) / c.focal.x, (uv.y - c.principal.y) / c.focal.y)
  }

  function ToPixels(c: Camera, n: Vec2): Vec2 {
    Vec2(c.focal.x * n.x + c.principal.x, c.focal.y * n.y + c.principal.y)
  }

  /** normalizePoint. */
  function Normalize(c: Camera, uv: Vec2): Option<Vec2>
    requires Usable(c)
  {
    var n := ToNormalized(c, uv);
    if SquaredNorm(n) > c.maxUv2 then None
    else
      var s := Undistort(c.model, n);
      if !Accepted(s) || SquaredNorm(s.xy) > c.maxXy2 then None else Some(s.xy)
  }

  /** denormalizePoint. */
  function Denormalize(c: Camera, xy: Vec2): Option<Vec2> {
    if SquaredNorm(xy) > c.maxXy2 then None
    else
      match Distort(c.model, xy)
      case None => None
      case Some(n) => if SquaredNorm(n) > c.maxUv2 then None else Some(ToPixels(c, n))
  }

  /** The pixel in units of the focal length, from the principal point. */
  predicate InFocalLengths(c: Camera, uv: Vec2, n: Vec2) {
    n.x * c.focal.x == uv.x - c.principal.x && n.y * c.focal.y == uv.y - c.principal.y
  }

  predicate Inside(n: Vec2, radius2: real) {
    n.x * n.x + n.y * n.y <= radius2
  }

  /** When a pixel can be normalized, and to what: inside the radius for pixels, undistorted with success, and the
      point found inside its own radius. */
  lemma {:induction false} NormalizeIff(c: Camera, uv: Vec2, n: Vec2)
    requires Usable(c) && InFocalLengths(c, uv, n)
    ensures match Normalize(c, uv)
            case Some(xy) => Inside(n, c.maxUv2) && Undistorts(c.model, n, true, xy) && Inside(xy, c.maxXy2)
            case None => Inside(n, c.maxUv2) ==>
              exists ok: bool, xy: Vec2 :: Undistorts(c.model, n, ok, xy) && (ok ==> !Inside(xy, c.maxXy2))
  {
    ToNormalizedIs(c, uv, n);
    UndistortReturns(c.model, n);
    InsideIff(n, c.maxUv2);
    InsideIff(Undistort(c.model, n).xy, c.maxXy2);
  }

  lemma {:induction false} InsideIff(n: Vec2, radius2: real)
    ensures Inside(n, radius2) <==> SquaredNorm(n) <= radius2
  {
  }

  lemma {:induction false} ToNormalizedIs(c: Camera, uv: Vec2, n: Vec2)
    requires Usable(c) && InFocalLengths(c, uv, n)
    ensures ToNormalized(c, uv) == n
  {
    DivisionIs(uv.x - c.principal.x, c.focal.x, n.x);
    DivisionIs(uv.y - c.principal.y, c.focal.y, n.y);
  }

  lemma {:induction false} DivisionIs(a: real, f: real, q: real)
    requires f != 0.0 && q * f == a
    ensures a / f == q
  {
  }

  /** When a point can be shown as a pixel, and as which: inside its radius, distorted, and inside the other. */
  lemma {:induction false} DenormalizeIff(c: Camera, xy: Vec2, uv: Vec2)
    requires Usable(c)
    ensures Denormalize(c, xy) == Some(uv) <==>
            && Inside(xy, c.maxXy2) && Defined(c.model, xy) && Inside(Distorted(c.model, xy), c.maxUv2)
            && InFocalLengths(c, uv, Distorted(c.model, xy))
  {
    InsideIff(xy, c.maxXy2);
    InsideIff(Distorted(c.model, xy), c.maxUv2);
    ToPixelsIff(c, Distorted(c.model, xy), uv);
  }

  lemma {:induction false} ToPixelsIff(c: Camera, n: Vec2, uv: Vec2)
    ensures ToPixels(c, n) == uv <==> InFocalLengths(c, uv, n)
  {
    assert c.focal.x * n.x == n.x * c.focal.x && c.focal.y * n.y == n.y * c.focal.y;
  }

  lemma {:induction false} ToPixelsBack(c: Camera, uv: Vec2)
    requires Usable(c)
    ensures ToPixels(c, ToNormalized(c, uv)) == uv
  {
  }

  lemma {:induction false} ToNormalizedBack(c: Camera, n: Vec2)
    requires Usable(c)
    ensures ToNormalized(c, ToPixels(c, n)) == n
  {
  }

  lemma {:induction false} PixelsClose(f: real, p: real, n: real, e: real)
    requires f > 0.0 && Abs(e - n) <= EPS
    ensures Abs((f * e + p) - (f * n + p)) <= f * EPS
  {
    TimesBounded(f, f, e - n, EPS);
    assert f * (e - n) == (f * e + p) - (f * n + p);
  }

  lemma {:induction false} PixelsBothClose(c: Camera, e: Vec2, n: Vec2)
    requires Usable(c) && Abs(e.x - n.x) <= EPS && Abs(e.y - n.y) <= EPS
    ensures Abs(ToPixels(c, e).x - ToPixels(c, n).x) <= c.focal.x * EPS
    ensures Abs(ToPixels(c, e).y - ToPixels(c, n).y) <= c.focal.y * EPS
  {
    PixelsClose(c.focal.x, c.principal.x, n.x, e.x);
    PixelsClose(c.focal.y, c.principal.y, n.y, e.y);
  }

  /** Found through the residual test, and inside both radii, a pixel comes back to within focal * EPS. */
  lemma {:induction false} RoundTrip(c: Camera, uv: Vec2)
    requires Usable(c) && Normalize(c, uv).Some? && Undistort(c.model, ToNormalized(c, uv)).exit.Residual?
    requires Denormalize(c, Normalize(c, uv).value).Some?
    ensures var back := Denormalize(c, Normalize(c, uv).value).value;
            Abs(back.x - uv.x) <= c.focal.x * EPS && Abs(back.y - uv.y) <= c.focal.y * EPS
  {
    var n, xy := ToNormalized(c, uv), Normalize(c, uv).value;
    UndistortExit(c.model, n);
    ToPixelsBack(c, uv);
    PixelsBothClose(c, Distorted(c.model, xy), n);
  }

  /** And the way back is open exactly when the distorted point stays inside its radius. */
  lemma {:induction false} WayBackIff(c: Camera, uv: Vec2)
    requires Usable(c) && Normalize(c, uv).Some? && Undistort(c.model, ToNormalized(c, uv)).exit.Residual?
    ensures var xy := Normalize(c, uv).value;
            Denormalize(c, xy).Some? <==> SquaredNorm(Distorted(c.model, xy)) <= c.maxUv2
  {
    UndistortExit(c.model, ToNormalized(c, uv));
  }

  /** Pinhole: a pixel that can be normalized comes back exactly, and so does a point. */
  lemma {:induction false} PinholeRoundTrip(c: Camera, uv: Vec2)
    requires Usable(c) && c.model.Pinhole? && Normalize(c, uv).Some?
    ensures Denormalize(c, Normalize(c, uv).value) == Some(uv)
  {
    ToPixelsBack(c, uv);
  }

  lemma {:induction false} PinholePointRoundTrip(c: Camera, xy: Vec2)
    requires Usable(c) && c.model.Pinhole? && Denormalize(c, xy).Some?
    ensures Normalize(c, Denormalize(c, xy).value) == Some(xy)
  {
    ToNormalizedBack(c, xy);
  }

  /** Pinhole: both directions accept the same points, those inside the smaller radius. */
  lemma {:induction false} PinholeAcceptsIff(c: Camera, uv: Vec2)
    requires Usable(c) && c.model.Pinhole?
    ensures var n2 := SquaredNorm(ToNormalized(c, uv));
            Normalize(c, uv).Some? <==> n2 <= c.maxUv2 && n2 <= c.maxXy2
    ensures Normalize(c, uv).Some? <==> Denormalize(c, ToNormalized(c, uv)).Some?
  {
  }
}
