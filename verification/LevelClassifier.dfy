/** Regression check of a KPI against the known levels of its history (scripts/cuvslam_kpi_report.py).

    A value is known when enough of the kept history lies within its tolerance and the oldest of that is old
    enough; the tolerance is the larger of a percentage and a multiple of the median deviation, and at least
    one for counts. One part of the module follows the verdict through a permutation of the history and
    of tonight's values, another through a change of unit and of sign: every stage, from the median to
    the date, is shown to commute with the change. */
module LevelClassifier {
  import opened Wrappers
  import opened Reals
  import opened Ordering

  datatype Sample = Sample(date: Option<int>, value: real)

  datatype Settings = Settings(window: nat, levelPct: real, minRuns: int, minAgeDays: int)

  datatype Status = Known | Regressed | Better

  datatype Result = Result(status: Status, values: seq<real>, worst: real, best: real, since: int)

  const MIN_BASELINE_RUNS := 3
  const LEVEL_MAD_FACTOR := 2.0
  const COUNT_MIN_BAND := 1.0

  predicate IsCount(metric: string) {
    metric == "TrackingLosts" || metric == "Failed"
  }

  predicate HigherIsBetter(metric: string) {
    metric == "FPS"
  }

  // ----- the tolerance -----

  function Values(reference: seq<Sample>): (r: seq<real>)
    ensures |r| == |reference|
  {
    Map(reference, (s: Sample) => s.value)
  }

  function Deviations(values: seq<real>, center: real): (r: seq<real>)
    ensures |r| == |values|
  {
    Map(values, (v: real) => Abs(v - center))
  }

  function Spread(values: seq<real>): real
    requires values != []
  {
    Median(Deviations(values, Median(values)))
  }

  function ToleranceOf(center: real, spread: real, levelPct: real): real {
    Max(levelPct / 100.0 * Abs(center), LEVEL_MAD_FACTOR * spread)
  }

  function BaseTolerance(values: seq<real>, levelPct: real): real
    requires values != []
  {
    ToleranceOf(Median(values), Spread(values), levelPct)
  }

  function Tolerance(count: bool, reference: seq<Sample>, levelPct: real): real
    requires reference != []
  {
    var base := BaseTolerance(Values(reference), levelPct);
    if count then Max(base, COUNT_MIN_BAND) else base
  }

  // ----- known levels -----

  function DateIfNear(value: real, tolerance: real): Sample -> seq<Option<int>> {
    (s: Sample) => if Abs(s.value - value) <= tolerance then [s.date] else []
  }

  function NearDates(reference: seq<Sample>, value: real, tolerance: real): seq<Option<int>> {
    Select(reference, DateIfNear(value, tolerance))
  }

  const Given: Option<int> -> seq<int> := (d: Option<int>) => if d.Some? then [d.value] else []

  function Dated(dates: seq<Option<int>>): seq<int> {
    Select(dates, Given)
  }

  function Earliest(dates: seq<int>): (r: int)
    requires dates != []
    ensures r in dates && forall d :: d in dates ==> r <= d
  {
    if |dates| == 1 then dates[0]
    else
      var n := |dates| - 1;
      var r := Earliest(dates[..n]);
      assert forall d :: d in dates <==> d in dates[..n] || d == dates[n];
      if dates[n] < r then dates[n] else r
  }

  /** Seen on enough nights, undated runs counting one each, the first of them long enough ago. */
  predicate EnoughNights(dates: seq<Option<int>>, today: int, settings: Settings) {
    var dated := Dated(dates);
    && |set d | d in dated| + multiset(dates)[None] >= settings.minRuns
    && (dated == [] || today - Earliest(dated) >= settings.minAgeDays)
  }

  predicate IsKnown(reference: seq<Sample>, value: real, tolerance: real, today: int, settings: Settings) {
    EnoughNights(NearDates(reference, value, tolerance), today, settings)
  }

  function LevelOf(reference: seq<Sample>, tolerance: real, today: int, settings: Settings): real -> seq<real> {
    (v: real) => if IsKnown(reference, v, tolerance, today, settings) then [v] else []
  }

  function Levels(reference: seq<Sample>, tolerance: real, today: int, settings: Settings): seq<real> {
    Select(Values(reference), LevelOf(reference, tolerance, today, settings))
  }

  predicate AnyKnown(tonight: seq<real>, reference: seq<Sample>, tolerance: real, today: int, settings: Settings) {
    exists i :: 0 <= i < |tonight| && IsKnown(reference, tonight[i], tolerance, today, settings)
  }

  // ----- the verdict -----

  predicate AllBelow(values: seq<real>, bound: real) {
    forall i :: 0 <= i < |values| ==> values[i] < bound
  }

  predicate AllAbove(values: seq<real>, bound: real) {
    forall i :: 0 <= i < |values| ==> values[i] > bound
  }

  function Worst(higherIsBetter: bool, levels: seq<real>): real
    requires levels != []
  {
    if higherIsBetter then Least(levels) else Greatest(levels)
  }

  function Best(higherIsBetter: bool, levels: seq<real>): real
    requires levels != []
  {
    if higherIsBetter then Greatest(levels) else Least(levels)
  }

  function Compare(higherIsBetter: bool, tonight: seq<real>, worst: real, best: real, tolerance: real): Status {
    if (if higherIsBetter then AllBelow(tonight, worst - tolerance) else AllAbove(tonight, worst + tolerance)) then Regressed
    else if (if higherIsBetter then AllAbove(tonight, best + tolerance) else AllBelow(tonight, best - tolerance)) then Better
    else Known
  }

  function Decide(higherIsBetter: bool, tonight: seq<real>, levels: seq<real>, tolerance: real, known: bool): Status
    requires levels != []
  {
    if known then Known
    else Compare(higherIsBetter, tonight, Worst(higherIsBetter, levels), Best(higherIsBetter, levels), tolerance)
  }

  function NearValue(reference: seq<Sample>, tolerance: real): real -> seq<int> {
    (v: real) => Dated(NearDates(reference, v, tolerance))
  }

  function NearTonight(tonight: seq<real>, reference: seq<Sample>, tolerance: real): seq<int> {
    Select(tonight, NearValue(reference, tolerance))
  }

  function Since(dates: seq<int>, today: int): int {
    if dates == [] then today else Earliest(dates)
  }

  function Verdict(higherIsBetter: bool, tonight: seq<real>, reference: seq<Sample>, tolerance: real, today: int,
                   settings: Settings): Option<Result>
  {
    var levels := Levels(reference, tolerance, today, settings);
    if levels == [] then None
    else
      var status := Decide(higherIsBetter, tonight, levels, tolerance,
                           AnyKnown(tonight, reference, tolerance, today, settings));
      Some(Result(status, tonight, Worst(higherIsBetter, levels), Best(higherIsBetter, levels),
                  Since(NearTonight(tonight, reference, tolerance), today)))
  }

  function Judge(higherIsBetter: bool, count: bool, tonight: seq<real>, reference: seq<Sample>, today: int,
                 settings: Settings): Option<Result>
  {
    if |reference| < MIN_BASELINE_RUNS then None
    else Verdict(higherIsBetter, tonight, reference, Tolerance(count, reference, settings.levelPct), today, settings)
  }

  function ClassifyLevels(metric: string, tonight: seq<real>, reference: seq<Sample>, today: int, settings: Settings): Option<Result> {
    Judge(HigherIsBetter(metric), IsCount(metric), tonight, reference, today, settings)
  }

  // ----- the order of the history is irrelevant -----

  lemma {:induction false} MapSelects<S(!new), T>(xs: seq<S>, f: S -> T, g: S -> seq<T>)
    requires forall x: S :: g(x) == [f(x)]
    ensures Select(xs, g) == Map(xs, f)
  {
    if xs != [] {
      MapSelects(xs[..|xs| - 1], f, g);
    }
  }

  lemma {:induction false} MapPermuted<S(!new), T>(xs: seq<S>, ys: seq<S>, f: S -> T)
    requires multiset(xs) == multiset(ys)
    ensures multiset(Map(xs, f)) == multiset(Map(ys, f))
  {
    var g := (x: S) => [f(x)];
    MapSelects(xs, f, g);
    MapSelects(ys, f, g);
    SelectPermuted(xs, ys, g);
  }

  lemma {:induction false} DeviationsPermuted(xs: seq<real>, ys: seq<real>, center: real)
    requires multiset(xs) == multiset(ys)
    ensures multiset(Deviations(xs, center)) == multiset(Deviations(ys, center))
  {
    var g := (v: real) => [Abs(v - center)];
    MapSelects(xs, (v: real) => Abs(v - center), g);
    MapSelects(ys, (v: real) => Abs(v - center), g);
    SelectPermuted(xs, ys, g);
  }

  lemma {:induction false} SpreadPermuted(xs: seq<real>, ys: seq<real>)
    requires xs != [] && multiset(xs) == multiset(ys)
    ensures ys != [] && Median(xs) == Median(ys) && Spread(xs) == Spread(ys)
  {
    MedianPermuted(xs, ys);
    DeviationsPermuted(xs, ys, Median(xs));
    MedianPermuted(Deviations(xs, Median(xs)), Deviations(ys, Median(xs)));
  }

  lemma {:induction false} ValuesPermuted(xs: seq<Sample>, ys: seq<Sample>)
    requires multiset(xs) == multiset(ys)
    ensures multiset(Values(xs)) == multiset(Values(ys))
  {
    MapPermuted(xs, ys, (s: Sample) => s.value);
  }

  lemma {:induction false} TolerancePermuted(count: bool, xs: seq<Sample>, ys: seq<Sample>, levelPct: real)
    requires xs != [] && multiset(xs) == multiset(ys)
    ensures ys != [] && Tolerance(count, xs, levelPct) == Tolerance(count, ys, levelPct)
  {
    ValuesPermuted(xs, ys);
    SpreadPermuted(Values(xs), Values(ys));
  }

  lemma {:induction false} EarliestPermuted(xs: seq<int>, ys: seq<int>)
    requires multiset(xs) == multiset(ys) && xs != []
    ensures ys != [] && Earliest(xs) == Earliest(ys)
  {
    SameLength(xs, ys);
    SameMember(xs, ys, Earliest(xs));
    SameMember(xs, ys, Earliest(ys));
  }

  lemma {:induction false} NightsPermuted(xs: seq<Option<int>>, ys: seq<Option<int>>, today: int, settings: Settings)
    requires multiset(xs) == multiset(ys)
    ensures EnoughNights(xs, today, settings) == EnoughNights(ys, today, settings)
  {
    var p, q := Dated(xs), Dated(ys);
    DatedPermuted(xs, ys);
    SameLength(p, q);
    if p != [] {
      EarliestPermuted(p, q);
    }
    forall d ensures d in p <==> d in q {
      SameMember(p, q, d);
    }
    assert (set d | d in p) == (set d | d in q);
  }

  lemma {:induction false} DatedPermuted(xs: seq<Option<int>>, ys: seq<Option<int>>)
    requires multiset(xs) == multiset(ys)
    ensures multiset(Dated(xs)) == multiset(Dated(ys))
  {
    SelectPermuted(xs, ys, Given);
  }

  lemma {:induction false} KnownPermuted(xs: seq<Sample>, ys: seq<Sample>, value: real, tolerance: real, today: int,
                                         settings: Settings)
    requires multiset(xs) == multiset(ys)
    ensures IsKnown(xs, value, tolerance, today, settings) == IsKnown(ys, value, tolerance, today, settings)
  {
    SelectPermuted(xs, ys, DateIfNear(value, tolerance));
    NightsPermuted(NearDates(xs, value, tolerance), NearDates(ys, value, tolerance), today, settings);
  }

  ghost predicate SameOn<S(!new), T>(f: S -> T, g: S -> T) {
    forall x: S :: f(x) == g(x)
  }

  lemma {:induction false} SelectSame<S(!new), T>(xs: seq<S>, f: S -> seq<T>, g: S -> seq<T>)
    requires SameOn(f, g)
    ensures Select(xs, f) == Select(xs, g)
  {
    if xs != [] {
      SelectSame(xs[..|xs| - 1], f, g);
    }
  }

  lemma {:induction false} LevelsPermuted(xs: seq<Sample>, ys: seq<Sample>, tolerance: real, today: int, settings: Settings)
    requires multiset(xs) == multiset(ys)
    ensures multiset(Levels(xs, tolerance, today, settings)) == multiset(Levels(ys, tolerance, today, settings))
  {
    var f, g := LevelOf(xs, tolerance, today, settings), LevelOf(ys, tolerance, today, settings);
    forall v: real ensures f(v) == g(v) {
      KnownPermuted(xs, ys, v, tolerance, today, settings);
    }
    ValuesPermuted(xs, ys);
    SelectPermuted(Values(xs), Values(ys), f);
    SelectSame(Values(ys), f, g);
  }

  lemma {:induction false} NearTonightPermuted(tonight: seq<real>, xs: seq<Sample>, ys: seq<Sample>, tolerance: real)
    requires multiset(xs) == multiset(ys)
    ensures multiset(NearTonight(tonight, xs, tolerance)) == multiset(NearTonight(tonight, ys, tolerance))
  {
    if tonight != [] {
      var n := |tonight| - 1;
      NearTonightPermuted(tonight[..n], xs, ys, tolerance);
      SelectPermuted(xs, ys, DateIfNear(tonight[n], tolerance));
      DatedPermuted(NearDates(xs, tonight[n], tolerance), NearDates(ys, tonight[n], tolerance));
    }
  }

  lemma {:induction false} SincePermuted(xs: seq<int>, ys: seq<int>, today: int)
    requires multiset(xs) == multiset(ys)
    ensures Since(xs, today) == Since(ys, today)
  {
    SameLength(xs, ys);
    if xs != [] {
      EarliestPermuted(xs, ys);
    }
  }

  lemma {:induction false} AnyKnownPermuted(tonight: seq<real>, xs: seq<Sample>, ys: seq<Sample>, tolerance: real,
                                            today: int, settings: Settings)
    requires multiset(xs) == multiset(ys)
    ensures AnyKnown(tonight, xs, tolerance, today, settings) == AnyKnown(tonight, ys, tolerance, today, settings)
  {
    forall i | 0 <= i < |tonight|
      ensures IsKnown(xs, tonight[i], tolerance, today, settings) == IsKnown(ys, tonight[i], tolerance, today, settings)
    {
      KnownPermuted(xs, ys, tonight[i], tolerance, today, settings);
    }
  }

  lemma {:induction false} DecidePermuted(higherIsBetter: bool, tonight: seq<real>, xs: seq<real>, ys: seq<real>,
                                          tolerance: real, known: bool)
    requires xs != [] && multiset(xs) == multiset(ys)
    ensures ys != [] && Least(xs) == Least(ys) && Greatest(xs) == Greatest(ys)
    ensures Decide(higherIsBetter, tonight, xs, tolerance, known) == Decide(higherIsBetter, tonight, ys, tolerance, known)
  {
    ExtremesPermuted(xs, ys);
  }

  /** Permuting the history changes nothing about the result. */
  lemma {:induction false} HistoryOrderIrrelevant(higherIsBetter: bool, count: bool, tonight: seq<real>,
                                                  xs: seq<Sample>, ys: seq<Sample>, today: int, settings: Settings)
    requires multiset(xs) == multiset(ys)
    ensures Judge(higherIsBetter, count, tonight, xs, today, settings) ==
            Judge(higherIsBetter, count, tonight, ys, today, settings)
  {
    SameLength(xs, ys);
    if |xs| >= MIN_BASELINE_RUNS {
      TolerancePermuted(count, xs, ys, settings.levelPct);
      var tolerance := Tolerance(count, xs, settings.levelPct);
      var p, q := Levels(xs, tolerance, today, settings), Levels(ys, tolerance, today, settings);
      LevelsPermuted(xs, ys, tolerance, today, settings);
      SameLength(p, q);
      if p != [] {
        AnyKnownPermuted(tonight, xs, ys, tolerance, today, settings);
        NearTonightPermuted(tonight, xs, ys, tolerance);
        SincePermuted(NearTonight(tonight, xs, tolerance), NearTonight(tonight, ys, tolerance), today);
        DecidePermuted(higherIsBetter, tonight, p, q, tolerance, AnyKnown(tonight, xs, tolerance, today, settings));
      }
    }
  }

  // ----- changing the unit or the sign -----

  function MapSamples(reference: seq<Sample>, f: real -> real): (r: seq<Sample>)
    ensures |r| == |reference|
  {
    Map(reference, (s: Sample) => Sample(s.date, f(s.value)))
  }

  /** The distances f keeps, up to the change of tolerance. */
  ghost predicate KeepsNear(f: real -> real, tolerance: real, tolerance': real) {
    forall x: real, y: real :: Abs(f(x) - f(y)) <= tolerance' <==> Abs(x - y) <= tolerance
  }

  lemma {:induction false} ValuesMapped(reference: seq<Sample>, f: real -> real)
    ensures Values(MapSamples(reference, f)) == Map(Values(reference), f)
  {
  }

  lemma {:induction false} NearMapped(reference: seq<Sample>, value: real, f: real -> real, tolerance: real, tolerance': real)
    requires KeepsNear(f, tolerance, tolerance')
    ensures NearDates(MapSamples(reference, f), f(value), tolerance') == NearDates(reference, value, tolerance)
  {
    if reference != [] {
      var n := |reference| - 1;
      NearMapped(reference[..n], value, f, tolerance, tolerance');
      assert MapSamples(reference, f)[..n] == MapSamples(reference[..n], f);
    }
  }

  lemma {:induction false} KnownMapped(reference: seq<Sample>, value: real, f: real -> real, tolerance: real,
                                       tolerance': real, today: int, settings: Settings)
    requires KeepsNear(f, tolerance, tolerance')
    ensures IsKnown(MapSamples(reference, f), f(value), tolerance', today, settings) ==
            IsKnown(reference, value, tolerance, today, settings)
  {
    NearMapped(reference, value, f, tolerance, tolerance');
  }

  ghost predicate CommutesAt(f: real -> real, g: real -> seq<real>, g': real -> seq<real>, v: real) {
    g'(f(v)) == Map(g(v), f)
  }

  lemma {:induction false} SelectMapped(xs: seq<real>, f: real -> real, g: real -> seq<real>, g': real -> seq<real>)
    requires forall v: real {:trigger CommutesAt(f, g, g', v)} :: CommutesAt(f, g, g', v)
    ensures Select(Map(xs, f), g') == Map(Select(xs, g), f)
  {
    if xs != [] {
      var n := |xs| - 1;
      SelectMapped(xs[..n], f, g, g');
      assert Map(xs, f)[..n] == Map(xs[..n], f);
      assert CommutesAt(f, g, g', xs[n]);
      assert Map(Select(xs[..n], g) + g(xs[n]), f) == Map(Select(xs[..n], g), f) + Map(g(xs[n]), f);
    }
  }

  lemma {:induction false} LevelsMapped(reference: seq<Sample>, f: real -> real, tolerance: real, tolerance': real,
                                        today: int, settings: Settings)
    requires KeepsNear(f, tolerance, tolerance')
    ensures Levels(MapSamples(reference, f), tolerance', today, settings) ==
            Map(Levels(reference, tolerance, today, settings), f)
  {
    var g, g' := LevelOf(reference, tolerance, today, settings), LevelOf(MapSamples(reference, f), tolerance', today, settings);
    forall v: real ensures CommutesAt(f, g, g', v) {
      KnownMapped(reference, v, f, tolerance, tolerance', today, settings);
    }
    ValuesMapped(reference, f);
    SelectMapped(Values(reference), f, g, g');
  }

  lemma {:induction false} AnyKnownMapped(tonight: seq<real>, reference: seq<Sample>, f: real -> real, tolerance: real,
                                          tolerance': real, today: int, settings: Settings)
    requires KeepsNear(f, tolerance, tolerance')
    ensures AnyKnown(Map(tonight, f), MapSamples(reference, f), tolerance', today, settings) ==
            AnyKnown(tonight, reference, tolerance, today, settings)
  {
    forall i | 0 <= i < |tonight|
      ensures IsKnown(MapSamples(reference, f), Map(tonight, f)[i], tolerance', today, settings) ==
              IsKnown(reference, tonight[i], tolerance, today, settings)
    {
      KnownMapped(reference, tonight[i], f, tolerance, tolerance', today, settings);
    }
  }

  lemma {:induction false} NearTonightMapped(tonight: seq<real>, reference: seq<Sample>, f: real -> real, tolerance: real,
                                             tolerance': real)
    requires KeepsNear(f, tolerance, tolerance')
    ensures NearTonight(Map(tonight, f), MapSamples(reference, f), tolerance') == NearTonight(tonight, reference, tolerance)
  {
    if tonight != [] {
      var n := |tonight| - 1;
      NearTonightMapped(tonight[..n], reference, f, tolerance, tolerance');
      assert Map(tonight, f)[..n] == Map(tonight[..n], f);
      NearMapped(reference, tonight[n], f, tolerance, tolerance');
    }
  }

  /** What has to be shown of a change of unit or sign: the tolerance follows, and so does the decision. */
  ghost predicate Follows(f: real -> real, higher: bool, higher': bool, tonight: seq<real>, reference: seq<Sample>, levelPct: real)
    requires reference != []
  {
    var t, t' := Tolerance(false, reference, levelPct), Tolerance(false, MapSamples(reference, f), levelPct);
    && KeepsNear(f, t, t')
    && forall levels: seq<real>, known: bool :: levels != [] ==>
         Decide(higher', Map(tonight, f), Map(levels, f), t', known) == Decide(higher, tonight, levels, t, known)
  }

  ghost predicate SameVerdict(r: Option<Result>, r': Option<Result>, f: real -> real) {
    && r.Some? == r'.Some?
    && (r.Some? ==> r'.value.status == r.value.status && r'.value.since == r.value.since
                    && r'.value.values == Map(r.value.values, f))
  }

  lemma {:induction false} FollowingJudgement(f: real -> real, higher: bool, higher': bool, tonight: seq<real>,
                                              reference: seq<Sample>, today: int, settings: Settings)
    requires reference != [] && Follows(f, higher, higher', tonight, reference, settings.levelPct)
    ensures SameVerdict(Judge(higher, false, tonight, reference, today, settings),
                        Judge(higher', false, Map(tonight, f), MapSamples(reference, f), today, settings), f)
  {
    var mapped := MapSamples(reference, f);
    var t, t' := Tolerance(false, reference, settings.levelPct), Tolerance(false, mapped, settings.levelPct);
    LevelsMapped(reference, f, t, t', today, settings);
    AnyKnownMapped(tonight, reference, f, t, t', today, settings);
    NearTonightMapped(tonight, reference, f, t, t');
  }

  // a change of unit

  /** An increasing additive map of the reals, such as multiplication by a positive factor. */
  ghost predicate Linear(f: real -> real) {
    Rising(f) && forall x: real, y: real {:trigger AddsAt(f, x, y)} :: AddsAt(f, x, y)
  }

  ghost predicate AddsAt(f: real -> real, x: real, y: real) {
    f(x + y) == f(x) + f(y)
  }

  lemma {:induction false} LinearFacts(f: real -> real, x: real, y: real)
    requires Linear(f)
    ensures f(x - y) == f(x) - f(y) && f(Abs(x)) == Abs(f(x)) && f(Abs(x - y)) == Abs(f(x) - f(y))
  {
    LinearZero(f);
    assert AddsAt(f, x - y, y);
    LinearAbs(f, x);
    LinearAbs(f, x - y);
  }

  lemma {:induction false} LinearZero(f: real -> real)
    requires Linear(f)
    ensures f(0.0) == 0.0
  {
    assert AddsAt(f, 0.0, 0.0);
  }

  lemma {:induction false} LinearAbs(f: real -> real, x: real)
    requires Linear(f)
    ensures f(Abs(x)) == Abs(f(x))
  {
    LinearZero(f);
    assert AddsAt(f, x, -x);
    assert x <= 0.0 <==> f(x) <= f(0.0);
    assert 0.0 <= x <==> f(0.0) <= f(x);
  }

  lemma {:induction false} LinearKeepsNear(f: real -> real, tolerance: real)
    requires Linear(f)
    ensures KeepsNear(f, tolerance, f(tolerance))
  {
    forall x: real, y: real ensures Abs(f(x) - f(y)) <= f(tolerance) <==> Abs(x - y) <= tolerance {
      LinearFacts(f, x, y);
    }
  }

  lemma {:induction false} LinearMean(f: real -> real, x: real, y: real)
    requires Linear(f)
    ensures f((x + y) / 2.0) == (f(x) + f(y)) / 2.0
  {
    var h := (x + y) / 2.0;
    assert AddsAt(f, h, h) && AddsAt(f, x, y);
    assert h + h == x + y;
  }

  lemma {:induction false} MiddleLinear(s: seq<real>, f: real -> real)
    requires s != [] && Linear(f)
    ensures Middle(Map(s, f)) == f(Middle(s))
  {
    var h := |s| / 2;
    if |s| % 2 == 0 {
      LinearMean(f, s[h - 1], s[h]);
    }
  }

  lemma {:induction false} MedianLinear(xs: seq<real>, f: real -> real)
    requires xs != [] && Linear(f)
    ensures Median(Map(xs, f)) == f(Median(xs))
  {
    SortMapped(xs, f);
    SortSorts(xs);
    MiddleLinear(Sort(xs), f);
  }

  lemma {:induction false} DeviationsLinear(xs: seq<real>, center: real, f: real -> real)
    requires Linear(f)
    ensures Deviations(Map(xs, f), f(center)) == Map(Deviations(xs, center), f)
  {
    forall i | 0 <= i < |xs| ensures Deviations(Map(xs, f), f(center))[i] == Map(Deviations(xs, center), f)[i] {
      LinearFacts(f, xs[i], center);
    }
  }

  lemma {:induction false} SpreadLinear(xs: seq<real>, f: real -> real)
    requires xs != [] && Linear(f)
    ensures Median(Map(xs, f)) == f(Median(xs)) && Spread(Map(xs, f)) == f(Spread(xs))
  {
    MedianLinear(xs, f);
    DeviationsLinear(xs, Median(xs), f);
    MedianLinear(Deviations(xs, Median(xs)), f);
  }

  ghost predicate Percent(f: real -> real, levelPct: real, x: real) {
    f(levelPct / 100.0 * Abs(x)) == levelPct / 100.0 * Abs(f(x))
  }

  lemma {:induction false} ToleranceOfLinear(center: real, spread: real, levelPct: real, f: real -> real)
    requires Linear(f) && Percent(f, levelPct, center)
    ensures ToleranceOf(f(center), f(spread), levelPct) == f(ToleranceOf(center, spread, levelPct))
  {
    assert AddsAt(f, spread, spread);
    assert spread + spread == LEVEL_MAD_FACTOR * spread;
  }

  lemma {:induction false} ToleranceLinear(reference: seq<Sample>, levelPct: real, f: real -> real)
    requires reference != [] && Linear(f) && Percent(f, levelPct, Median(Values(reference)))
    ensures Tolerance(false, MapSamples(reference, f), levelPct) == f(Tolerance(false, reference, levelPct))
  {
    var values := Values(reference);
    ValuesMapped(reference, f);
    SpreadLinear(values, f);
    ToleranceOfLinear(Median(values), Spread(values), levelPct, f);
  }

  lemma {:induction false} LevelBoundsLinear(tonight: seq<real>, level: real, tolerance: real, f: real -> real)
    requires Linear(f)
    ensures AllBelow(Map(tonight, f), f(level) - f(tolerance)) == AllBelow(tonight, level - tolerance)
    ensures AllAbove(Map(tonight, f), f(level) + f(tolerance)) == AllAbove(tonight, level + tolerance)
  {
    LinearFacts(f, level, tolerance);
    assert AddsAt(f, level, tolerance);
  }

  lemma {:induction false} CompareLinear(higher: bool, tonight: seq<real>, worst: real, best: real, tolerance: real,
                                         f: real -> real)
    requires Linear(f)
    ensures Compare(higher, Map(tonight, f), f(worst), f(best), f(tolerance)) == Compare(higher, tonight, worst, best, tolerance)
  {
    LevelBoundsLinear(tonight, worst, tolerance, f);
    LevelBoundsLinear(tonight, best, tolerance, f);
  }

  lemma {:induction false} DecideLinear(higher: bool, tonight: seq<real>, levels: seq<real>, tolerance: real, known: bool,
                                        f: real -> real)
    requires levels != [] && Linear(f)
    ensures Decide(higher, Map(tonight, f), Map(levels, f), f(tolerance), known) ==
            Decide(higher, tonight, levels, tolerance, known)
  {
    ExtremesMapped(levels, f);
    CompareLinear(higher, tonight, Worst(higher, levels), Best(higher, levels), tolerance, f);
  }

  lemma {:induction false} LinearIrrelevant(higher: bool, tonight: seq<real>, reference: seq<Sample>, today: int,
                                            settings: Settings, f: real -> real)
    requires Linear(f) && (reference != [] ==> Percent(f, settings.levelPct, Median(Values(reference))))
    ensures SameVerdict(Judge(higher, false, tonight, reference, today, settings),
                        Judge(higher, false, Map(tonight, f), MapSamples(reference, f), today, settings), f)
  {
    if reference != [] {
      var t := Tolerance(false, reference, settings.levelPct);
      ToleranceLinear(reference, settings.levelPct, f);
      LinearKeepsNear(f, t);
      forall levels: seq<real>, known: bool | levels != []
        ensures Decide(higher, Map(tonight, f), Map(levels, f), f(t), known) == Decide(higher, tonight, levels, t, known)
      {
        DecideLinear(higher, tonight, levels, t, known, f);
      }
      FollowingJudgement(f, higher, higher, tonight, reference, today, settings);
    }
  }

  function Scale(a: real): real -> real {
    (x: real) => a * x
  }

  lemma {:induction false} ScaleOrder(a: real, x: real, y: real)
    requires a > 0.0
    ensures x <= y <==> a * x <= a * y
  {
    if x < y {
      assert a * (y - x) > 0.0;
    } else if y < x {
      assert a * (x - y) > 0.0;
    }
  }

  lemma {:induction false} ScaleLinear(a: real)
    requires a > 0.0
    ensures Linear(Scale(a))
  {
    forall x: real, y: real ensures x <= y <==> Scale(a)(x) <= Scale(a)(y) {
      ScaleOrder(a, x, y);
    }
    forall x: real, y: real ensures AddsAt(Scale(a), x, y) {
    }
  }

  lemma {:induction false} ScalePercent(a: real, levelPct: real, x: real)
    requires a > 0.0
    ensures Percent(Scale(a), levelPct, x)
  {
    ScaleLinear(a);
    LinearAbs(Scale(a), x);
    assert a * (levelPct / 100.0 * Abs(x)) == levelPct / 100.0 * (a * Abs(x));
  }

  /** Measuring everything in another unit changes neither status nor date. */
  lemma {:induction false} UnitIrrelevant(higher: bool, tonight: seq<real>, reference: seq<Sample>, today: int,
                                          settings: Settings, a: real)
    requires a > 0.0
    ensures SameVerdict(Judge(higher, false, tonight, reference, today, settings),
                        Judge(higher, false, Map(tonight, Scale(a)), MapSamples(reference, Scale(a)), today, settings), Scale(a))
  {
    ScaleLinear(a);
    if reference != [] {
      ScalePercent(a, settings.levelPct, Median(Values(reference)));
    }
    LinearIrrelevant(higher, tonight, reference, today, settings, Scale(a));
  }

  // sign

  const Minus: real -> real := (x: real) => -x

  lemma {:induction false} AbsOfNegated(x: real, y: real)
    requires y == -x
    ensures Abs(y) == Abs(x)
  {
  }

  lemma {:induction false} DeviationsNegated(xs: seq<real>, center: real)
    ensures Deviations(Negated(xs), -center) == Deviations(xs, center)
  {
    forall i | 0 <= i < |xs| ensures Deviations(Negated(xs), -center)[i] == Deviations(xs, center)[i] {
      assert Negated(xs)[i] == -xs[i];
      AbsOfNegated(xs[i] - center, Negated(xs)[i] - -center);
    }
  }

  lemma {:induction false} SpreadNegated(xs: seq<real>)
    requires xs != []
    ensures Median(Negated(xs)) == -Median(xs) && Spread(Negated(xs)) == Spread(xs)
  {
    MedianNegated(xs);
    DeviationsNegated(xs, Median(xs));
  }

  lemma {:induction false} ToleranceOfNegated(center: real, spread: real, levelPct: real)
    ensures ToleranceOf(-center, spread, levelPct) == ToleranceOf(center, spread, levelPct)
  {
    assert Abs(-center) == Abs(center);
  }

  lemma {:induction false} ToleranceNegated(reference: seq<Sample>, levelPct: real)
    requires reference != []
    ensures Tolerance(false, MapSamples(reference, Minus), levelPct) == Tolerance(false, reference, levelPct)
  {
    var values := Values(reference);
    ValuesMapped(reference, Minus);
    SpreadNegated(values);
    ToleranceOfNegated(Median(values), Spread(values), levelPct);
  }

  lemma {:induction false} DecideNegated(higher: bool, tonight: seq<real>, levels: seq<real>, tolerance: real, known: bool)
    requires levels != []
    ensures Decide(!higher, Negated(tonight), Negated(levels), tolerance, known) ==
            Decide(higher, tonight, levels, tolerance, known)
  {
    ExtremesNegated(levels);
  }

  /** Negating everything and flipping the better direction changes neither status nor date. */
  lemma {:induction false} SignIrrelevant(higher: bool, tonight: seq<real>, reference: seq<Sample>, today: int, settings: Settings)
    ensures SameVerdict(Judge(higher, false, tonight, reference, today, settings),
                        Judge(!higher, false, Map(tonight, Minus), MapSamples(reference, Minus), today, settings), Minus)
  {
    if reference != [] {
      var t := Tolerance(false, reference, settings.levelPct);
      ToleranceNegated(reference, settings.levelPct);
      forall levels: seq<real>, known: bool | levels != []
        ensures Decide(!higher, Map(tonight, Minus), Map(levels, Minus), t, known) == Decide(higher, tonight, levels, t, known)
      {
        DecideNegated(higher, tonight, levels, t, known);
      }
      FollowingJudgement(Minus, higher, !higher, tonight, reference, today, settings);
    }
  }

  // ----- what a verdict means -----

  /** A verdict other than known: no value of tonight is known, and each is beyond every level. */
  lemma {:induction false} RegressedIff(higher: bool, tonight: seq<real>, levels: seq<real>, tolerance: real, known: bool)
    requires levels != []
    ensures Decide(higher, tonight, levels, tolerance, known) == Regressed <==>
            !known && forall v, l :: v in tonight && l in levels ==> if higher then v < l - tolerance else v > l + tolerance
  {
    var worst := if higher then Least(levels) else Greatest(levels);
    if forall v, l :: v in tonight && l in levels ==> if higher then v < l - tolerance else v > l + tolerance {
      forall i | 0 <= i < |tonight|
        ensures if higher then tonight[i] < worst - tolerance else tonight[i] > worst + tolerance
      {
        assert tonight[i] in tonight && worst in levels;
      }
    }
  }

  /** And better: the same, beyond every level on the other side. With a value for tonight the two do not meet. */
  lemma {:induction false} BetterIff(higher: bool, tonight: seq<real>, levels: seq<real>, tolerance: real, known: bool)
    requires levels != [] && tonight != [] && tolerance >= 0.0
    ensures Decide(higher, tonight, levels, tolerance, known) == Better <==>
            !known && forall v, l :: v in tonight && l in levels ==> if higher then v > l + tolerance else v < l - tolerance
  {
    var best := Best(higher, levels);
    assert tonight[0] in tonight && best in levels && Worst(higher, levels) in levels;
    if forall v, l :: v in tonight && l in levels ==> if higher then v > l + tolerance else v < l - tolerance {
      forall i | 0 <= i < |tonight|
        ensures if higher then tonight[i] > best + tolerance else tonight[i] < best - tolerance
      {
        assert tonight[i] in tonight;
      }
    }
  }

  lemma {:induction false} MedianNotNegative(xs: seq<real>)
    requires xs != [] && forall i :: 0 <= i < |xs| ==> xs[i] >= 0.0
    ensures Median(xs) >= 0.0
  {
    SortSorts(xs);
    forall i | 0 <= i < |Sort(xs)| ensures Sort(xs)[i] >= 0.0 {
      assert Sort(xs)[i] in multiset(Sort(xs));
    }
  }

  /** The tolerance of the code always is as that asks, whatever the settings. */
  lemma {:induction false} ToleranceNotNegative(count: bool, reference: seq<Sample>, levelPct: real)
    requires reference != []
    ensures Tolerance(count, reference, levelPct) >= 0.0
  {
    var values := Values(reference);
    var deviations := Deviations(values, Median(values));
    assert forall i :: 0 <= i < |deviations| ==> deviations[i] == Abs(values[i] - Median(values));
    MedianNotNegative(deviations);
  }

  /** So for the verdict of the code on any history, whatever the settings. */
  lemma {:induction false} JudgedBetterIff(higher: bool, count: bool, tonight: seq<real>, reference: seq<Sample>, today: int,
                                           settings: Settings)
    requires tonight != [] && Judge(higher, count, tonight, reference, today, settings).Some?
    ensures var tolerance := Tolerance(count, reference, settings.levelPct);
            var levels := Levels(reference, tolerance, today, settings);
            Judge(higher, count, tonight, reference, today, settings).value.status == Better <==>
            !AnyKnown(tonight, reference, tolerance, today, settings) &&
            forall v, l :: v in tonight && l in levels ==> if higher then v > l + tolerance else v < l - tolerance
  {
    var tolerance := Tolerance(count, reference, settings.levelPct);
    ToleranceNotNegative(count, reference, settings.levelPct);
    BetterIff(higher, tonight, Levels(reference, tolerance, today, settings), tolerance,
              AnyKnown(tonight, reference, tolerance, today, settings));
  }

  lemma {:induction false} OnLevel(higher: bool, tonight: seq<real>, reference: seq<Sample>, tolerance: real, today: int,
                                   settings: Settings, v: real, level: real)
    requires v in tonight && level in Levels(reference, tolerance, today, settings) && Abs(v - level) <= tolerance
    ensures var r := Verdict(higher, tonight, reference, tolerance, today, settings); r.Some? && r.value.status == Known
  {
    var i :| 0 <= i < |tonight| && tonight[i] == v;
  }

  /** A value within tolerance of a known level: neither regressed nor better. */
  lemma {:induction false} OnLevelIsKnown(higher: bool, count: bool, tonight: seq<real>, reference: seq<Sample>, today: int,
                                          settings: Settings, v: real, level: real)
    requires |reference| >= MIN_BASELINE_RUNS
    ensures var tolerance := Tolerance(count, reference, settings.levelPct);
            var r := Judge(higher, count, tonight, reference, today, settings);
            v in tonight && level in Levels(reference, tolerance, today, settings) && Abs(v - level) <= tolerance
            ==> r.Some? && r.value.status == Known
  {
    var tolerance := Tolerance(count, reference, settings.levelPct);
    if v in tonight && level in Levels(reference, tolerance, today, settings) && Abs(v - level) <= tolerance {
      OnLevel(higher, tonight, reference, tolerance, today, settings, v, level);
    }
  }

  /** Levels are exactly the values of the history that are known. */
  lemma {:induction false} LevelsAre(reference: seq<Sample>, tolerance: real, today: int, settings: Settings, level: real)
    ensures level in Levels(reference, tolerance, today, settings) <==>
            level in Values(reference) && IsKnown(reference, level, tolerance, today, settings)
  {
    var f := LevelOf(reference, tolerance, today, settings);
    Selected(Values(reference), f, level);
    if level in Values(reference) && IsKnown(reference, level, tolerance, today, settings) {
      assert level in f(level);
    }
  }

  /** A count one off a known level is never flagged. */
  lemma {:induction false} CountOffByOneIsKnown(higher: bool, tonight: seq<real>, reference: seq<Sample>, today: int,
                                                settings: Settings, v: real, level: real)
    requires |reference| >= MIN_BASELINE_RUNS && Abs(v - level) <= 1.0
    ensures var tolerance := Tolerance(true, reference, settings.levelPct);
            var r := Judge(higher, true, tonight, reference, today, settings);
            v in tonight && level in Levels(reference, tolerance, today, settings) ==> r.Some? && r.value.status == Known
  {
    OnLevelIsKnown(higher, true, tonight, reference, today, settings, v, level);
  }

  /** With no value for tonight every "all" test holds: the code would report a regression. Its caller
      always passes at least one. */
  lemma {:induction false} NothingTonightIsRegressed(higher: bool, count: bool, reference: seq<Sample>, today: int, settings: Settings)
    ensures var r := Judge(higher, count, [], reference, today, settings); r.Some? ==> r.value.status == Regressed
  {
  }

  // ----- known, tolerance and verdict, said of the samples themselves -----

  /** Sample i lies within the tolerance of a value. */
  ghost predicate NearAt(reference: seq<Sample>, value: real, tolerance: real, i: int) {
    0 <= i < |reference| && value - tolerance <= reference[i].value <= value + tolerance
  }

  /** The dates on which a value near this one was seen. */
  ghost function NightsNear(reference: seq<Sample>, value: real, tolerance: real): set<int> {
    set i | 0 <= i < |reference| && NearAt(reference, value, tolerance, i) && reference[i].date.Some? ::
      reference[i].date.value
  }

  /** The samples near this value whose run has no date. */
  ghost function UndatedNear(reference: seq<Sample>, value: real, tolerance: real): set<int> {
    set i | 0 <= i < |reference| && NearAt(reference, value, tolerance, i) && reference[i].date.None?
  }

  /** Seen on enough different nights, undated samples counting one each, and on one of them long enough ago,
      unless all are undated. */
  ghost predicate SeenEnough(reference: seq<Sample>, value: real, tolerance: real, today: int, settings: Settings) {
    && |NightsNear(reference, value, tolerance)| + |UndatedNear(reference, value, tolerance)| >= settings.minRuns
    && (NightsNear(reference, value, tolerance) == {} ||
        exists d :: d in NightsNear(reference, value, tolerance) && today - d >= settings.minAgeDays)
  }

  lemma {:induction false} NearDatesAre(reference: seq<Sample>, value: real, tolerance: real)
    ensures var dates := NearDates(reference, value, tolerance);
            && multiset(dates)[None] == |UndatedNear(reference, value, tolerance)|
            && forall d: int :: Some(d) in dates <==> d in NightsNear(reference, value, tolerance)
  {
    if reference == [] {
      assert UndatedNear(reference, value, tolerance) == {};
    } else {
      var n := |reference| - 1;
      var before, last := reference[..n], reference[n];
      NearDatesAre(before, value, tolerance);
      NearGrows(reference, value, tolerance);
      var f := DateIfNear(value, tolerance);
      assert NearDates(reference, value, tolerance) == NearDates(before, value, tolerance) + f(last);
      assert (Abs(last.value - value) <= tolerance) == NearAt(reference, value, tolerance, n);
    }
  }

  lemma {:induction false} NearGrows(reference: seq<Sample>, value: real, tolerance: real)
    requires reference != []
    ensures var n := |reference| - 1;
            var near, date := NearAt(reference, value, tolerance, n), reference[n].date;
            && NightsNear(reference, value, tolerance) ==
                 NightsNear(reference[..n], value, tolerance) + (if near && date.Some? then {date.value} else {})
            && UndatedNear(reference, value, tolerance) ==
                 UndatedNear(reference[..n], value, tolerance) + (if near && date.None? then {n} else {})
            && n !in UndatedNear(reference[..n], value, tolerance)
  {
    var n := |reference| - 1;
    forall i | 0 <= i < n ensures NearAt(reference, value, tolerance, i) <==> NearAt(reference[..n], value, tolerance, i) {
    }
    assert forall d :: d in NightsNear(reference[..n], value, tolerance) <==>
        exists i :: 0 <= i < n && NearAt(reference, value, tolerance, i) && reference[i].date == Some(d);
  }

  lemma {:induction false} DatedAre(dates: seq<Option<int>>)
    ensures forall d: int :: d in Dated(dates) <==> Some(d) in dates
  {
    forall d: int ensures d in Dated(dates) <==> Some(d) in dates {
      Selected(dates, Given, d);
      if Some(d) in dates {
        assert d in Given(Some(d));
      }
    }
  }

  /** When a value is known. */
  lemma {:induction false} KnownIff(reference: seq<Sample>, value: real, tolerance: real, today: int, settings: Settings)
    ensures IsKnown(reference, value, tolerance, today, settings) <==>
            SeenEnough(reference, value, tolerance, today, settings)
  {
    var dates, nights := NearDates(reference, value, tolerance), NightsNear(reference, value, tolerance);
    NearDatesAre(reference, value, tolerance);
    DatedAre(dates);
    var dated := Dated(dates);
    SameDates(dated, nights);
  }

  lemma {:induction false} SameDates(dated: seq<int>, nights: set<int>)
    requires forall d: int :: d in dated <==> d in nights
    ensures (set d | d in dated) == nights
    ensures dated == [] <==> nights == {}
    ensures dated != [] ==> Earliest(dated) in nights && forall d :: d in nights ==> Earliest(dated) <= d
  {
    var those := set d | d in dated;
    forall d: int ensures d in those <==> d in nights {
      assert d in those <==> d in dated;
    }
    if dated != [] {
      assert dated[0] in nights;
    } else {
      assert forall d :: d !in nights;
    }
  }

  ghost predicate IsMedian(xs: seq<real>, m: real) {
    exists s: seq<real> ::
      && Ascending(s) && multiset(s) == multiset(xs) && s != []
      && m == if |s| % 2 == 1 then s[|s| / 2] else (s[|s| / 2 - 1] + s[|s| / 2]) / 2.0
  }

  lemma {:induction false} MedianIs(xs: seq<real>)
    requires xs != []
    ensures IsMedian(xs, Median(xs))
  {
    SortSorts(xs);
    assert |Sort(xs)| % 2 == 1 || |Sort(xs)| % 2 == 0;
  }

  function SampleValues(reference: seq<Sample>): seq<real> {
    seq(|reference|, i requires 0 <= i < |reference| => reference[i].value)
  }

  function Distances(reference: seq<Sample>, center: real): seq<real> {
    seq(|reference|, i requires 0 <= i < |reference| => Abs(reference[i].value - center))
  }

  /** The larger of a percentage of the median and twice the median deviation, and at least 1 for the two metrics
      that count. */
  predicate IsLargest(metric: string, center: real, spread: real, levelPct: real, tolerance: real) {
    && tolerance >= levelPct * Abs(center) / 100.0 && tolerance >= 2.0 * spread
    && (metric == "TrackingLosts" || metric == "Failed" ==> tolerance >= 1.0)
    && (tolerance == levelPct * Abs(center) / 100.0 || tolerance == 2.0 * spread ||
        ((metric == "TrackingLosts" || metric == "Failed") && tolerance == 1.0))
  }

  ghost predicate IsTolerance(metric: string, reference: seq<Sample>, levelPct: real, tolerance: real) {
    exists center: real, spread: real ::
      && IsMedian(SampleValues(reference), center) && IsMedian(Distances(reference, center), spread)
      && IsLargest(metric, center, spread, levelPct, tolerance)
  }

  lemma {:induction false} LargestIs(metric: string, center: real, spread: real, levelPct: real)
    ensures var base := ToleranceOf(center, spread, levelPct);
            IsLargest(metric, center, spread, levelPct, if IsCount(metric) then Max(base, COUNT_MIN_BAND) else base)
  {
    PercentOf(levelPct, Abs(center));
  }

  lemma {:induction false} PercentOf(levelPct: real, x: real)
    ensures levelPct / 100.0 * x == levelPct * x / 100.0
  {
  }

  lemma {:induction false} SampleValuesAre(reference: seq<Sample>)
    ensures Values(reference) == SampleValues(reference)
  {
  }

  lemma {:induction false} DistancesAre(reference: seq<Sample>, center: real)
    ensures Deviations(Values(reference), center) == Distances(reference, center)
  {
    SampleValuesAre(reference);
    assert forall i :: 0 <= i < |reference| ==> Values(reference)[i] == reference[i].value;
  }

  lemma {:induction false} ToleranceIs(metric: string, reference: seq<Sample>, levelPct: real)
    requires reference != []
    ensures IsTolerance(metric, reference, levelPct, Tolerance(IsCount(metric), reference, levelPct))
  {
    var values := Values(reference);
    var center := Median(values);
    SampleValuesAre(reference);
    DistancesAre(reference, center);
    MedianIs(values);
    MedianIs(Deviations(values, center));
    LargestIs(metric, center, Spread(values), levelPct);
  }

  /** A level: the value of a sample that is known. */
  ghost predicate LevelAt(reference: seq<Sample>, tolerance: real, today: int, settings: Settings, l: real) {
    (exists i :: 0 <= i < |reference| && reference[i].value == l) && SeenEnough(reference, l, tolerance, today, settings)
  }

  ghost predicate NothingKnown(tonight: seq<real>, reference: seq<Sample>, tolerance: real, today: int, settings: Settings) {
    forall v :: v in tonight ==> !SeenEnough(reference, v, tolerance, today, settings)
  }

  ghost predicate BeyondLevels(tonight: seq<real>, reference: seq<Sample>, tolerance: real, today: int, settings: Settings,
                               above: bool)
  {
    forall v, l :: v in tonight && LevelAt(reference, tolerance, today, settings, l) ==>
      if above then v > l + tolerance else v < l - tolerance
  }

  /** The date reported: the first on which a value near one of tonight's was seen, or today. */
  ghost predicate IsSince(tonight: seq<real>, reference: seq<Sample>, tolerance: real, today: int, since: int) {
    if forall v :: v in tonight ==> NightsNear(reference, v, tolerance) == {} then since == today
    else
      && (exists v :: v in tonight && since in NightsNear(reference, v, tolerance))
      && forall v, d :: v in tonight && d in NightsNear(reference, v, tolerance) ==> since <= d
  }

  /** The whole verdict for a given tolerance. */
  ghost predicate Explained(higher: bool, tonight: seq<real>, reference: seq<Sample>, tolerance: real, today: int,
                            settings: Settings, result: Option<Result>)
  {
    match result
    case None => forall l: real :: !LevelAt(reference, tolerance, today, settings, l)
    case Some(r) =>
      && r.values == tonight
      && LevelAt(reference, tolerance, today, settings, r.worst) && LevelAt(reference, tolerance, today, settings, r.best)
      && (forall l: real :: LevelAt(reference, tolerance, today, settings, l) ==>
            if higher then r.worst <= l <= r.best else r.best <= l <= r.worst)
      && (r.status == Regressed <==>
            NothingKnown(tonight, reference, tolerance, today, settings) &&
            BeyondLevels(tonight, reference, tolerance, today, settings, !higher))
      && (r.status == Better <==>
            r.status != Regressed && NothingKnown(tonight, reference, tolerance, today, settings) &&
            BeyondLevels(tonight, reference, tolerance, today, settings, higher))
      && IsSince(tonight, reference, tolerance, today, r.since)
  }

  lemma {:induction false} LevelsAreLevels(reference: seq<Sample>, tolerance: real, today: int, settings: Settings)
    ensures forall l: real :: l in Levels(reference, tolerance, today, settings) <==>
              LevelAt(reference, tolerance, today, settings, l)
  {
    forall l: real ensures l in Levels(reference, tolerance, today, settings) <==>
        LevelAt(reference, tolerance, today, settings, l)
    {
      LevelsAre(reference, tolerance, today, settings, l);
      KnownIff(reference, l, tolerance, today, settings);
      assert Values(reference) == SampleValues(reference);
      assert l in SampleValues(reference) <==> exists i :: 0 <= i < |reference| && reference[i].value == l;
    }
  }

  lemma {:induction false} NothingKnownIff(tonight: seq<real>, reference: seq<Sample>, tolerance: real, today: int,
                                           settings: Settings)
    ensures !AnyKnown(tonight, reference, tolerance, today, settings) <==>
            NothingKnown(tonight, reference, tolerance, today, settings)
  {
    forall v: real ensures IsKnown(reference, v, tolerance, today, settings) <==>
        SeenEnough(reference, v, tolerance, today, settings)
    {
      KnownIff(reference, v, tolerance, today, settings);
    }
    if NothingKnown(tonight, reference, tolerance, today, settings) {
      assert forall i :: 0 <= i < |tonight| ==> tonight[i] in tonight;
    }
  }

  lemma {:induction false} SeenNear(reference: seq<Sample>, tolerance: real, v: real, d: int)
    ensures d in NearValue(reference, tolerance)(v) <==> d in NightsNear(reference, v, tolerance)
  {
    NearDatesAre(reference, v, tolerance);
    DatedAre(NearDates(reference, v, tolerance));
  }

  lemma {:induction false} SeenTonight(tonight: seq<real>, reference: seq<Sample>, tolerance: real, d: int)
    ensures d in NearTonight(tonight, reference, tolerance) <==>
            exists v :: v in tonight && d in NightsNear(reference, v, tolerance)
  {
    Selected(tonight, NearValue(reference, tolerance), d);
    forall v: real ensures d in NearValue(reference, tolerance)(v) <==> d in NightsNear(reference, v, tolerance) {
      SeenNear(reference, tolerance, v, d);
    }
  }

  lemma {:induction false} SinceIs(tonight: seq<real>, reference: seq<Sample>, tolerance: real, today: int)
    ensures IsSince(tonight, reference, tolerance, today, Since(NearTonight(tonight, reference, tolerance), today))
  {
    var dates := NearTonight(tonight, reference, tolerance);
    forall d: int ensures d in dates <==> exists v :: v in tonight && d in NightsNear(reference, v, tolerance) {
      SeenTonight(tonight, reference, tolerance, d);
    }
    SinceOf(tonight, reference, tolerance, dates, today);
  }

  lemma {:induction false} SinceOf(tonight: seq<real>, reference: seq<Sample>, tolerance: real, dates: seq<int>, today: int)
    requires forall d: int :: d in dates <==> exists v :: v in tonight && d in NightsNear(reference, v, tolerance)
    ensures IsSince(tonight, reference, tolerance, today, Since(dates, today))
  {
    if dates == [] {
      forall v | v in tonight ensures NightsNear(reference, v, tolerance) == {} {
        forall d: int ensures d !in NightsNear(reference, v, tolerance) {
          assert d !in dates;
        }
      }
    } else {
      var first := Earliest(dates);
      var w :| w in tonight && first in NightsNear(reference, w, tolerance);
      forall v, d | v in tonight && d in NightsNear(reference, v, tolerance) ensures first <= d {
        assert d in dates;
      }
    }
  }

  /** Better in general: also with nothing for tonight. */
  lemma {:induction false} BetterUnlessRegressed(higher: bool, tonight: seq<real>, levels: seq<real>, tolerance: real, known: bool)
    requires levels != []
    ensures Decide(higher, tonight, levels, tolerance, known) == Better <==>
            Decide(higher, tonight, levels, tolerance, known) != Regressed &&
            !known && forall v, l :: v in tonight && l in levels ==> if higher then v > l + tolerance else v < l - tolerance
  {
    var best := Best(higher, levels);
    assert best in levels;
    if forall v, l :: v in tonight && l in levels ==> if higher then v > l + tolerance else v < l - tolerance {
      forall i | 0 <= i < |tonight|
        ensures if higher then tonight[i] > best + tolerance else tonight[i] < best - tolerance
      {
        assert tonight[i] in tonight;
      }
    }
  }

  lemma {:induction false} VerdictExplained(higher: bool, tonight: seq<real>, reference: seq<Sample>, tolerance: real, today: int,
                                            settings: Settings)
    ensures Explained(higher, tonight, reference, tolerance, today, settings,
                      Verdict(higher, tonight, reference, tolerance, today, settings))
  {
    var levels := Levels(reference, tolerance, today, settings);
    LevelsAreLevels(reference, tolerance, today, settings);
    if levels != [] {
      var known := AnyKnown(tonight, reference, tolerance, today, settings);
      NothingKnownIff(tonight, reference, tolerance, today, settings);
      RegressedIff(higher, tonight, levels, tolerance, known);
      BetterUnlessRegressed(higher, tonight, levels, tolerance, known);
      SinceIs(tonight, reference, tolerance, today);
    }
  }

  /** No verdict on fewer than three samples; otherwise the verdict for the tolerance of the metric, of which only
      FPS is better when higher. */
  ghost predicate ExplainedFor(metric: string, tonight: seq<real>, reference: seq<Sample>, today: int, settings: Settings,
                               result: Option<Result>)
  {
    if |reference| < 3 then result == None
    else
      exists tolerance: real ::
        && IsTolerance(metric, reference, settings.levelPct, tolerance)
        && Explained(metric == "FPS", tonight, reference, tolerance, today, settings, result)
  }

  lemma {:induction false} ClassificationExplained(metric: string, tonight: seq<real>, reference: seq<Sample>, today: int,
                                                   settings: Settings)
    ensures ExplainedFor(metric, tonight, reference, today, settings,
                         ClassifyLevels(metric, tonight, reference, today, settings))
  {
    if |reference| >= 3 {
      var tolerance := Tolerance(IsCount(metric), reference, settings.levelPct);
      ToleranceIs(metric, reference, settings.levelPct);
      VerdictExplained(HigherIsBetter(metric), tonight, reference, tolerance, today, settings);
    }
  }

  // ----- one group of configurations -----

  /** What the report of one configuration holds for one key: tonight's value, if there is one, and the
      history, a run date (if the run's name has one) and a value (unless the run lacks it) each. */
  datatype Report = Report(current: Option<real>, runs: seq<Option<int>>, values: seq<Option<real>>)

  function Pairs(runs: seq<Option<int>>, values: seq<Option<real>>): seq<Sample> {
    var n := if |runs| < |values| then |runs| else |values|;
    if n == 0 then []
    else Pairs(runs[..n - 1], values[..n - 1]) +
         if values[n - 1].Some? then [Sample(runs[n - 1], values[n - 1].value)] else []
  }

  /** history_values: the last window pairs; a window of 0 takes them all, as a slice from -0 does. */
  function HistoryValues(report: Report, window: nat): seq<Sample> {
    var pairs := Pairs(report.runs, report.values);
    if window == 0 || window >= |pairs| then pairs else pairs[|pairs| - window..]
  }

  /** One sample for each position at which both a run and a value are listed, in order. */
  ghost predicate SamplesOf(runs: seq<Option<int>>, values: seq<Option<real>>, samples: seq<Sample>) {
    exists ks: seq<int> :: SampledAt(runs, values, ks, samples)
  }

  ghost predicate SampledAt(runs: seq<Option<int>>, values: seq<Option<real>>, ks: seq<int>, samples: seq<Sample>) {
    && |ks| == |samples|
    && (forall i, j :: 0 <= i < j < |ks| ==> ks[i] < ks[j])
    && (forall k :: 0 <= k < |runs| && k < |values| && values[k].Some? ==> k in ks)
    && forall i :: 0 <= i < |ks| ==> SampleAt(runs, values, ks[i], samples[i])
  }

  predicate SampleAt(runs: seq<Option<int>>, values: seq<Option<real>>, k: int, sample: Sample) {
    0 <= k < |runs| && k < |values| && sample.date == runs[k] && values[k] == Some(sample.value)
  }

  lemma {:induction false} PairsSample(runs: seq<Option<int>>, values: seq<Option<real>>) returns (ks: seq<int>)
    ensures SampledAt(runs, values, ks, Pairs(runs, values))
  {
    var n := if |runs| < |values| then |runs| else |values|;
    if n == 0 {
      ks := [];
    } else {
      var before := PairsSample(runs[..n - 1], values[..n - 1]);
      ks := if values[n - 1].Some? then before + [n - 1] else before;
      SampledOneMore(runs, values, n, before, ks);
    }
  }

  lemma {:induction false} SampledOneMore(runs: seq<Option<int>>, values: seq<Option<real>>, n: nat, before: seq<int>,
                                          ks: seq<int>)
    requires 0 < n <= |runs| && n <= |values| && (n == |runs| || n == |values|)
    requires SampledAt(runs[..n - 1], values[..n - 1], before, Pairs(runs[..n - 1], values[..n - 1]))
    requires ks == if values[n - 1].Some? then before + [n - 1] else before
    ensures SampledAt(runs, values, ks, Pairs(runs, values))
  {
    var older := Pairs(runs[..n - 1], values[..n - 1]);
    forall i | 0 <= i < |before| ensures SampleAt(runs, values, before[i], older[i]) && before[i] < n - 1 {
      assert SampleAt(runs[..n - 1], values[..n - 1], before[i], older[i]);
    }
    forall k | 0 <= k < n && values[k].Some? ensures k in ks {
      if k < n - 1 {
        assert values[..n - 1][k].Some? && k in before;
      }
    }
  }

  /** The history of one configuration: the last of these samples, as many as the window says or all of them; a
      window of 0 takes all. */
  ghost predicate LatestOf(report: Report, window: nat, kept: seq<Sample>) {
    exists all: seq<Sample> ::
      && SamplesOf(report.runs, report.values, all)
      && |kept| == (if 0 < window && window < |all| then window else |all|)
      && kept == all[|all| - |kept|..]
  }

  lemma {:induction false} HistoryIsLatest(report: Report, window: nat)
    ensures LatestOf(report, window, HistoryValues(report, window))
  {
    var all := Pairs(report.runs, report.values);
    var ks := PairsSample(report.runs, report.values);
    assert SamplesOf(report.runs, report.values, all);
    WindowBoundsIff(report, window);
  }

  /** A positive window keeps exactly as many samples as it says, or all there are; a window of 0 keeps all, so
      the history is bounded by the window unless that is 0. */
  lemma {:induction false} WindowBoundsIff(report: Report, window: nat)
    ensures var all, kept := Pairs(report.runs, report.values), HistoryValues(report, window);
            && kept == all[|all| - |kept|..]
            && (window > 0 ==> |kept| == if window < |all| then window else |all|)
            && (window == 0 ==> kept == all)
            && (|kept| <= window <==> (window > 0 || all == []))
  {
  }

  function HistoryOf(window: nat): Report -> seq<Sample> {
    (r: Report) => HistoryValues(r, window)
  }

  const CurrentOf: Report -> seq<real> := (r: Report) => if r.current.Some? then [r.current.value] else []

  predicate AnyMissing(reports: seq<Report>) {
    exists i :: 0 <= i < |reports| && reports[i].current == None
  }

  function GroupResult(metric: string, reports: seq<Report>, settings: Settings, today: int): Option<Result> {
    if AnyMissing(reports) then None
    else ClassifyLevels(metric, Select(reports, CurrentOf), Select(reports, HistoryOf(settings.window)), today, settings)
  }

  function Joined(parts: seq<seq<Sample>>): seq<Sample> {
    if parts == [] then [] else Joined(parts[..|parts| - 1]) + parts[|parts| - 1]
  }

  /** The histories of all configurations, one after the other. */
  ghost predicate Pooled(reports: seq<Report>, window: nat, reference: seq<Sample>) {
    exists parts: seq<seq<Sample>> ::
      && |parts| == |reports| && reference == Joined(parts)
      && forall i :: 0 <= i < |parts| ==> LatestOf(reports[i], window, parts[i])
  }

  function Histories(reports: seq<Report>, window: nat): seq<seq<Sample>> {
    seq(|reports|, i requires 0 <= i < |reports| => HistoryValues(reports[i], window))
  }

  lemma {:induction false} SelectJoins(reports: seq<Report>, window: nat)
    ensures Select(reports, HistoryOf(window)) == Joined(Histories(reports, window))
  {
    if reports != [] {
      var n := |reports| - 1;
      SelectJoins(reports[..n], window);
      assert Histories(reports, window)[..n] == Histories(reports[..n], window);
    }
  }

  lemma {:induction false} SelectPools(reports: seq<Report>, window: nat)
    ensures Pooled(reports, window, Select(reports, HistoryOf(window)))
  {
    SelectJoins(reports, window);
    var parts := Histories(reports, window);
    forall i | 0 <= i < |parts| ensures LatestOf(reports[i], window, parts[i]) {
      HistoryIsLatest(reports[i], window);
    }
  }

  ghost predicate AreCurrent(reports: seq<Report>, tonight: seq<real>) {
    && |tonight| == |reports|
    && forall i :: 0 <= i < |reports| ==> reports[i].current == Some(tonight[i])
  }

  lemma {:induction false} SelectCurrent(reports: seq<Report>)
    requires !AnyMissing(reports)
    ensures AreCurrent(reports, Select(reports, CurrentOf))
  {
    if reports != [] {
      var n := |reports| - 1;
      assert forall i :: 0 <= i < n ==> reports[..n][i] == reports[i];
      SelectCurrent(reports[..n]);
      assert reports[n].current != None;
    }
  }

  /** The result for a group: none when a configuration lacks tonight's value, else the verdict on tonight's
      values, one per configuration, against the pooled histories. */
  ghost predicate ExplainedGroup(metric: string, reports: seq<Report>, settings: Settings, today: int, result: Option<Result>) {
    if exists i :: 0 <= i < |reports| && reports[i].current == None then result == None
    else
      exists tonight: seq<real>, reference: seq<Sample> ::
        && AreCurrent(reports, tonight) && Pooled(reports, settings.window, reference)
        && ExplainedFor(metric, tonight, reference, today, settings, result)
  }

  lemma {:induction false} GroupExplained(metric: string, reports: seq<Report>, settings: Settings, today: int)
    ensures ExplainedGroup(metric, reports, settings, today, GroupResult(metric, reports, settings, today))
  {
    if !AnyMissing(reports) {
      var tonight, reference := Select(reports, CurrentOf), Select(reports, HistoryOf(settings.window));
      SelectCurrent(reports);
      SelectPools(reports, settings.window);
      ClassificationExplained(metric, tonight, reference, today, settings);
    }
  }

  /** The loop body of group_level_results, for one group. */
  method JudgeGroup(metric: string, reports: seq<Report>, settings: Settings, today: int) returns (result: Option<Result>)
    ensures result == GroupResult(metric, reports, settings, today)
    ensures ExplainedGroup(metric, reports, settings, today, result)
  {
    var tonight, reference: seq<Sample> := [], [];
    for i := 0 to |reports|
      invariant !AnyMissing(reports[..i]) && tonight == Select(reports[..i], CurrentOf)
    {
      assert reports[..i + 1] == reports[..i] + [reports[i]];
      if reports[i].current == None {
        GroupExplained(metric, reports, settings, today);
        return None;
      }
      assert reports[..i + 1][..i] == reports[..i];
      tonight := tonight + [reports[i].current.value];
    }
    assert reports[..|reports|] == reports;
    for i := 0 to |reports|
      invariant reference == Select(reports[..i], HistoryOf(settings.window))
    {
      assert reports[..i + 1][..i] == reports[..i];
      reference := reference + HistoryValues(reports[i], settings.window);
    }
    assert reports[..|reports|] == reports;
    result := ClassifyLevels(metric, tonight, reference, today, settings);
    GroupExplained(metric, reports, settings, today);
  }

  /** The same but for the order of the values reported. */
  ghost predicate SameButOrder(r: Option<Result>, r': Option<Result>) {
    match r
    case None => r' == None
    case Some(x) =>
      && r'.Some? && multiset(r'.value.values) == multiset(x.values)
      && r'.value.(values := x.values) == x
  }

  lemma {:induction false} CompareOrder(higher: bool, xs: seq<real>, ys: seq<real>, worst: real, best: real, tolerance: real)
    requires multiset(xs) == multiset(ys)
    ensures Compare(higher, xs, worst, best, tolerance) == Compare(higher, ys, worst, best, tolerance)
  {
    forall bound: real ensures AllBelow(xs, bound) == AllBelow(ys, bound) && AllAbove(xs, bound) == AllAbove(ys, bound) {
      BoundsOrder(xs, ys, bound);
      BoundsOrder(ys, xs, bound);
    }
  }

  lemma {:induction false} BoundsOrder(xs: seq<real>, ys: seq<real>, bound: real)
    requires multiset(xs) == multiset(ys)
    ensures AllBelow(xs, bound) ==> AllBelow(ys, bound)
    ensures AllAbove(xs, bound) ==> AllAbove(ys, bound)
  {
    forall i | 0 <= i < |ys| ensures ys[i] in xs {
      SameMember(xs, ys, ys[i]);
    }
  }

  lemma {:induction false} AnyKnownOrder(xs: seq<real>, ys: seq<real>, reference: seq<Sample>, tolerance: real, today: int,
                                         settings: Settings)
    requires multiset(xs) == multiset(ys) && AnyKnown(xs, reference, tolerance, today, settings)
    ensures AnyKnown(ys, reference, tolerance, today, settings)
  {
    var i :| 0 <= i < |xs| && IsKnown(reference, xs[i], tolerance, today, settings);
    SameMember(xs, ys, xs[i]);
    var j :| 0 <= j < |ys| && ys[j] == xs[i];
  }

  /** The order in which tonight's values come changes nothing but the order in which they are listed. */
  lemma {:induction false} TonightOrderIrrelevant(higher: bool, count: bool, xs: seq<real>, ys: seq<real>,
                                                  reference: seq<Sample>, today: int, settings: Settings)
    requires multiset(xs) == multiset(ys)
    ensures SameButOrder(Judge(higher, count, xs, reference, today, settings),
                         Judge(higher, count, ys, reference, today, settings))
  {
    if |reference| >= MIN_BASELINE_RUNS {
      var tolerance := Tolerance(count, reference, settings.levelPct);
      var levels := Levels(reference, tolerance, today, settings);
      if levels != [] {
        TonightOrder(higher, xs, ys, reference, tolerance, levels, today, settings);
      }
    }
  }

  lemma {:induction false} TonightOrder(higher: bool, xs: seq<real>, ys: seq<real>, reference: seq<Sample>, tolerance: real,
                                        levels: seq<real>, today: int, settings: Settings)
    requires multiset(xs) == multiset(ys) && levels != []
    ensures var known, known' := AnyKnown(xs, reference, tolerance, today, settings), AnyKnown(ys, reference, tolerance, today, settings);
            known == known' && Decide(higher, xs, levels, tolerance, known) == Decide(higher, ys, levels, tolerance, known)
    ensures Since(NearTonight(xs, reference, tolerance), today) == Since(NearTonight(ys, reference, tolerance), today)
  {
    if AnyKnown(xs, reference, tolerance, today, settings) {
      AnyKnownOrder(xs, ys, reference, tolerance, today, settings);
    } else if AnyKnown(ys, reference, tolerance, today, settings) {
      AnyKnownOrder(ys, xs, reference, tolerance, today, settings);
    }
    CompareOrder(higher, xs, ys, Worst(higher, levels), Best(higher, levels), tolerance);
    SelectPermuted(xs, ys, NearValue(reference, tolerance));
    SincePermuted(NearTonight(xs, reference, tolerance), NearTonight(ys, reference, tolerance), today);
  }

  lemma {:induction false} MissingOrder(xs: seq<Report>, ys: seq<Report>)
    requires multiset(xs) == multiset(ys) && AnyMissing(xs)
    ensures AnyMissing(ys)
  {
    var i :| 0 <= i < |xs| && xs[i].current == None;
    SameMember(xs, ys, xs[i]);
    var j :| 0 <= j < |ys| && ys[j] == xs[i];
  }

  /** The configurations of a group may come in any order. */
  lemma {:induction false} GroupOrderIrrelevant(metric: string, xs: seq<Report>, ys: seq<Report>, settings: Settings, today: int)
    requires multiset(xs) == multiset(ys)
    ensures SameButOrder(GroupResult(metric, xs, settings, today), GroupResult(metric, ys, settings, today))
  {
    if AnyMissing(xs) {
      MissingOrder(xs, ys);
    } else if AnyMissing(ys) {
      MissingOrder(ys, xs);
    } else {
      var history := HistoryOf(settings.window);
      SelectPermuted(xs, ys, CurrentOf);
      SelectPermuted(xs, ys, history);
      TonightOrderIrrelevant(HigherIsBetter(metric), IsCount(metric), Select(xs, CurrentOf), Select(ys, CurrentOf),
                             Select(xs, history), today, settings);
      HistoryOrderIrrelevant(HigherIsBetter(metric), IsCount(metric), Select(ys, CurrentOf), Select(xs, history),
                             Select(ys, history), today, settings);
    }
  }
}
