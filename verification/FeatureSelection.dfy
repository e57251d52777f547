/** Choosing new features to track (libs/cuda_modules/selection_v2.cpp): a quota per image bin, and one
    greedy pass over the keypoints, strongest first. Sizes and weights are real numbers. */
module FeatureSelection {
  import opened Wrappers

  const BINS_X: nat := 8
  const BINS_Y: nat := 8
  const BINS: nat := 64

  datatype Point = Point(x: real, y: real)

  type Mask = (int, int) -> bool

  datatype Frame = Frame(width: int, height: int, binWidth: int, binHeight: int,
                         left: int, right: int, top: int, bottom: int, mask: Option<Mask>)

  ghost predicate OnImage(f: Frame, p: Point) {
    0.0 <= p.x < f.width as real && 0.0 <= p.y < f.height as real
  }

  function Cell(v: real, size: int): (r: nat)
    requires v >= 0.0 && size > 0
  {
    (v / size as real).Floor
  }

  /** The bin of a point, unless it lies beyond the grid. The point has no negative coordinate, so
      converting to unsigned truncates. */
  function BinOf(f: Frame, p: Point): (r: Option<nat>)
    requires f.binWidth > 0 && f.binHeight > 0 && p.x >= 0.0 && p.y >= 0.0
    ensures r.Some? ==> r.value < BINS
  {
    var x, y := Cell(p.x, f.binWidth), Cell(p.y, f.binHeight);
    if x < BINS_X && y < BINS_Y then Some(y * BINS_X + x) else None
  }

  predicate InBorder(f: Frame, p: Point) {
    && !(p.x < f.left as real) && !(p.x > (f.width - 1 - f.right) as real)
    && !(p.y < f.top as real) && !(p.y > (f.height - 1 - f.bottom) as real)
  }

  predicate Masked(f: Frame, p: Point) {
    f.mask.Some? && f.mask.value(p.y.Floor, p.x.Floor)
  }

  predicate Usable(f: Frame) {
    f.binWidth > 0 && f.binHeight > 0
  }

  /** The bin a keypoint competes in, if it may be selected at all. */
  function Competes(f: Frame, p: Point): (r: Option<nat>)
    requires Usable(f) && p.x >= 0.0 && p.y >= 0.0
    ensures r.Some? ==> r.value < BINS
  {
    if InBorder(f, p) && !Masked(f, p) then BinOf(f, p) else None
  }

  ghost predicate AllOnImage(f: Frame, ps: seq<Point>) {
    forall i :: 0 <= i < |ps| ==> OnImage(f, ps[i])
  }

  ghost predicate NonNegative(ps: seq<Point>) {
    forall i :: 0 <= i < |ps| ==> ps[i].x >= 0.0 && ps[i].y >= 0.0
  }

  // ----- quotas -----

  /** How many of the first n points lie in bin b. */
  function InBin(f: Frame, ps: seq<Point>, n: nat, b: nat): nat
    requires Usable(f) && NonNegative(ps) && n <= |ps|
  {
    if n == 0 then 0 else InBin(f, ps, n - 1, b) + if BinOf(f, ps[n - 1]) == Some(b) then 1 else 0
  }

  function Sum(weights: seq<real>, n: nat): real
    requires n <= |weights|
  {
    if n == 0 then 0.0 else Sum(weights, n - 1) + weights[n - 1]
  }

  /** std::round, of a number that is not negative. */
  function Round(x: real): (r: int)
    ensures r as real <= x + 0.5 < r as real + 1.0
  {
    (x + 0.5).Floor
  }

  function Share(total: nat, weight: real, sum: real): int
    requires sum > 0.0
  {
    Round(total as real * weight / sum)
  }

  function Expected(weights: seq<real>, total: nat, b: nat): int
    requires |weights| == BINS && b < BINS && Sum(weights, BINS) > 0.0
  {
    Share(total, weights[b], Sum(weights, BINS))
  }

  function Quota(f: Frame, weights: seq<real>, alive: seq<Point>, desired: nat, b: nat): nat
    requires Usable(f) && NonNegative(alive) && |weights| == BINS && b < BINS && Sum(weights, BINS) > 0.0
  {
    Missing(Expected(weights, |alive| + desired, b), InBin(f, alive, |alive|, b))
  }

  function Missing(expected: int, before: nat): nat {
    if expected > before then expected - before else 0
  }

  function Quotas(f: Frame, weights: seq<real>, alive: seq<Point>, desired: nat): (r: seq<nat>)
    requires Usable(f) && NonNegative(alive) && |weights| == BINS && Sum(weights, BINS) > 0.0
    ensures |r| == BINS
  {
    seq(BINS, b requires 0 <= b < BINS => Quota(f, weights, alive, desired, b))
  }

  // ----- the greedy pass -----

  ghost predicate Fits(f: Frame, kps: seq<Point>, quota: seq<nat>) {
    Usable(f) && AllOnImage(f, kps) && |quota| == BINS
  }

  function Bin(f: Frame, kps: seq<Point>, i: nat): (r: Option<nat>)
    requires Usable(f) && AllOnImage(f, kps) && i < |kps|
    ensures r.Some? ==> r.value < BINS
  {
    Competes(f, kps[i])
  }

  function Taken(f: Frame, kps: seq<Point>, quota: seq<nat>, desired: nat, n: nat, b: nat): nat
    requires Fits(f, kps, quota) && n <= |kps|
    decreases n, 0
  {
    if n == 0 then 0
    else Taken(f, kps, quota, desired, n - 1, b) +
         if Bin(f, kps, n - 1) == Some(b) && Picks(f, kps, quota, desired, n - 1) then 1 else 0
  }

  function Count(f: Frame, kps: seq<Point>, quota: seq<nat>, desired: nat, n: nat): nat
    requires Fits(f, kps, quota) && n <= |kps|
    decreases n, 0
  {
    if n == 0 then 0
    else Count(f, kps, quota, desired, n - 1) + if Picks(f, kps, quota, desired, n - 1) then 1 else 0
  }

  /** Is keypoint i selected, given what the earlier ones took? */
  predicate Picks(f: Frame, kps: seq<Point>, quota: seq<nat>, desired: nat, i: nat)
    requires Fits(f, kps, quota) && i < |kps|
    decreases i, 1
  {
    var b := Bin(f, kps, i);
    && b.Some? && Taken(f, kps, quota, desired, i, b.value) < quota[b.value]
    && Count(f, kps, quota, desired, i) < desired
  }

  /** The selected keypoints among the first n, in order. */
  function Selected(f: Frame, kps: seq<Point>, quota: seq<nat>, desired: nat, n: nat): seq<Point>
    requires Fits(f, kps, quota) && n <= |kps|
  {
    if n == 0 then []
    else Selected(f, kps, quota, desired, n - 1) + if Picks(f, kps, quota, desired, n - 1) then [kps[n - 1]] else []
  }

  lemma {:induction false} SelectedCount(f: Frame, kps: seq<Point>, quota: seq<nat>, desired: nat, n: nat)
    requires Fits(f, kps, quota) && n <= |kps|
    ensures |Selected(f, kps, quota, desired, n)| == Count(f, kps, quota, desired, n) <= desired
  {
    if n > 0 {
      SelectedCount(f, kps, quota, desired, n - 1);
    }
  }

  lemma {:induction false} WithinQuota(f: Frame, kps: seq<Point>, quota: seq<nat>, desired: nat, n: nat, b: nat)
    requires Fits(f, kps, quota) && n <= |kps| && b < BINS
    ensures Taken(f, kps, quota, desired, n, b) <= quota[b]
  {
    if n > 0 {
      WithinQuota(f, kps, quota, desired, n - 1, b);
    }
  }

  /** Once the total is reached nothing more is selected: returning early is the same. */
  lemma {:induction false} FullStaysFull(f: Frame, kps: seq<Point>, quota: seq<nat>, desired: nat, n: nat, m: nat)
    requires Fits(f, kps, quota) && n <= m <= |kps| && Count(f, kps, quota, desired, n) >= desired
    ensures Selected(f, kps, quota, desired, m) == Selected(f, kps, quota, desired, n)
    ensures Count(f, kps, quota, desired, m) == Count(f, kps, quota, desired, n)
  {
    if n < m {
      FullStaysFull(f, kps, quota, desired, n, m - 1);
    }
  }

  // ----- who is selected -----

  function Min(x: nat, y: nat): nat {
    if x < y then x else y
  }

  /** How many of the first n keypoints compete in bin b. */
  function Competing(f: Frame, kps: seq<Point>, n: nat, b: nat): nat
    requires Usable(f) && AllOnImage(f, kps) && n <= |kps|
  {
    if n == 0 then 0 else Competing(f, kps, n - 1, b) + if Bin(f, kps, n - 1) == Some(b) then 1 else 0
  }

  lemma {:induction false} CountGrows(f: Frame, kps: seq<Point>, quota: seq<nat>, desired: nat, m: nat, n: nat)
    requires Fits(f, kps, quota) && m <= n <= |kps|
    ensures Count(f, kps, quota, desired, m) <= Count(f, kps, quota, desired, n)
  {
    if m < n {
      CountGrows(f, kps, quota, desired, m, n - 1);
    }
  }

  /** Before the total is reached, every bin has taken as many as its quota allows. */
  lemma {:induction false} TakenIs(f: Frame, kps: seq<Point>, quota: seq<nat>, desired: nat, n: nat, b: nat)
    requires Fits(f, kps, quota) && n <= |kps| && b < BINS && Count(f, kps, quota, desired, n) < desired
    ensures Taken(f, kps, quota, desired, n, b) == Min(Competing(f, kps, n, b), quota[b])
  {
    if n > 0 {
      CountGrows(f, kps, quota, desired, n - 1, n);
      TakenIs(f, kps, quota, desired, n - 1, b);
    }
  }

  lemma {:induction false} TakenAtMost(f: Frame, kps: seq<Point>, quota: seq<nat>, desired: nat, n: nat, b: nat)
    requires Fits(f, kps, quota) && n <= |kps| && b < BINS
    ensures Taken(f, kps, quota, desired, n, b) <= Min(Competing(f, kps, n, b), quota[b])
  {
    WithinQuota(f, kps, quota, desired, n, b);
    if n > 0 {
      TakenAtMost(f, kps, quota, desired, n - 1, b);
    }
  }

  /** Before the total is reached a keypoint is selected exactly if it competes and fewer competitors than
      the quota come before it: each bin gets its strongest ones. */
  lemma {:induction false} PicksStrongest(f: Frame, kps: seq<Point>, quota: seq<nat>, desired: nat, i: nat)
    requires Fits(f, kps, quota) && i < |kps| && Count(f, kps, quota, desired, i) < desired
    ensures Picks(f, kps, quota, desired, i) <==>
            var b := Bin(f, kps, i); b.Some? && Competing(f, kps, i, b.value) < quota[b.value]
  {
    var b := Bin(f, kps, i);
    if b.Some? {
      TakenIs(f, kps, quota, desired, i, b.value);
    }
  }

  /** A keypoint passed over before the total is reached is outside the borders, masked, off the grid, or
      its bin is full. */
  lemma {:induction false} PassedOverBecause(f: Frame, kps: seq<Point>, quota: seq<nat>, desired: nat, i: nat)
    requires Fits(f, kps, quota) && i < |kps| && Count(f, kps, quota, desired, i) < desired
    requires !Picks(f, kps, quota, desired, i)
    ensures var p := kps[i];
            || !InBorder(f, p) || Masked(f, p) || BinOf(f, p) == None
            || Taken(f, kps, quota, desired, i, BinOf(f, p).value) == quota[BinOf(f, p).value]
  {
    if Bin(f, kps, i).Some? {
      WithinQuota(f, kps, quota, desired, i, Bin(f, kps, i).value);
    }
  }

  /** The selection is an in-order subsequence, all of it inside the borders, unmasked and on the grid. */
  lemma {:induction false} SelectedFrom(f: Frame, kps: seq<Point>, quota: seq<nat>, desired: nat, n: nat) returns (at: seq<nat>)
    requires Fits(f, kps, quota) && n <= |kps|
    ensures |at| == |Selected(f, kps, quota, desired, n)|
    ensures forall j :: 0 <= j < |at| ==> at[j] < n && Selected(f, kps, quota, desired, n)[j] == kps[at[j]]
    ensures forall j, k :: 0 <= j < k < |at| ==> at[j] < at[k]
    ensures forall j :: 0 <= j < |at| ==> InBorder(f, kps[at[j]]) && !Masked(f, kps[at[j]]) && Bin(f, kps, at[j]).Some?
  {
    if n == 0 {
      at := [];
    } else {
      at := SelectedFrom(f, kps, quota, desired, n - 1);
      if Picks(f, kps, quota, desired, n - 1) {
        at := at + [n - 1];
      }
    }
  }

  // ----- how many are selected -----

  function Total(counts: seq<nat>, k: nat): nat
    requires k <= |counts|
  {
    if k == 0 then 0 else Total(counts, k - 1) + counts[k - 1]
  }

  lemma {:induction false} TotalSame(xs: seq<nat>, ys: seq<nat>, k: nat)
    requires k <= |xs| && k <= |ys| && forall b :: 0 <= b < k ==> xs[b] == ys[b]
    ensures Total(xs, k) == Total(ys, k)
  {
    if k > 0 {
      TotalSame(xs, ys, k - 1);
    }
  }

  lemma {:induction false} TotalOneMore(xs: seq<nat>, ys: seq<nat>, at: nat, k: nat)
    requires at < k <= |xs| && k <= |ys| && ys[at] == xs[at] + 1
    requires forall b :: 0 <= b < k && b != at ==> ys[b] == xs[b]
    ensures Total(ys, k) == Total(xs, k) + 1
  {
    if at == k - 1 {
      TotalSame(xs, ys, k - 1);
    } else {
      TotalOneMore(xs, ys, at, k - 1);
    }
  }

  lemma {:induction false} TotalAtMost(xs: seq<nat>, ys: seq<nat>, k: nat)
    requires k <= |xs| && k <= |ys| && forall b :: 0 <= b < k ==> xs[b] <= ys[b]
    ensures Total(xs, k) <= Total(ys, k)
  {
    if k > 0 {
      TotalAtMost(xs, ys, k - 1);
    }
  }

  function AllTaken(f: Frame, kps: seq<Point>, quota: seq<nat>, desired: nat, n: nat): (r: seq<nat>)
    requires Fits(f, kps, quota) && n <= |kps|
  {
    seq(BINS, b requires 0 <= b < BINS => Taken(f, kps, quota, desired, n, b))
  }

  /** What each bin could take at most. */
  function Room(f: Frame, kps: seq<Point>, quota: seq<nat>): (r: seq<nat>)
    requires Fits(f, kps, quota)
  {
    seq(BINS, b requires 0 <= b < BINS => Min(Competing(f, kps, |kps|, b), quota[b]))
  }

  lemma {:induction false} CountIsTotal(f: Frame, kps: seq<Point>, quota: seq<nat>, desired: nat, n: nat)
    requires Fits(f, kps, quota) && n <= |kps|
    ensures Count(f, kps, quota, desired, n) == Total(AllTaken(f, kps, quota, desired, n), BINS)
  {
    var now := AllTaken(f, kps, quota, desired, n);
    if n == 0 {
      ZeroTotal(now, BINS);
    } else {
      CountIsTotal(f, kps, quota, desired, n - 1);
      var before := AllTaken(f, kps, quota, desired, n - 1);
      if Picks(f, kps, quota, desired, n - 1) {
        TotalOneMore(before, now, Bin(f, kps, n - 1).value, BINS);
      } else {
        TotalSame(before, now, BINS);
      }
    }
  }

  lemma {:induction false} ZeroTotal(xs: seq<nat>, k: nat)
    requires k <= |xs| && forall b :: 0 <= b < k ==> xs[b] == 0
    ensures Total(xs, k) == 0
  {
    if k > 0 {
      ZeroTotal(xs, k - 1);
    }
  }

  /** As many are selected as the bins have room for, or as many as desired. */
  lemma {:induction false} HowMany(f: Frame, kps: seq<Point>, quota: seq<nat>, desired: nat)
    requires Fits(f, kps, quota)
    ensures |Selected(f, kps, quota, desired, |kps|)| == Min(desired, Total(Room(f, kps, quota), BINS))
  {
    var n := |kps|;
    var taken, room := AllTaken(f, kps, quota, desired, n), Room(f, kps, quota);
    SelectedCount(f, kps, quota, desired, n);
    CountIsTotal(f, kps, quota, desired, n);
    if Count(f, kps, quota, desired, n) < desired {
      forall b | 0 <= b < BINS ensures taken[b] == room[b] {
        TakenIs(f, kps, quota, desired, n, b);
      }
      TotalSame(taken, room, BINS);
    } else {
      forall b | 0 <= b < BINS ensures taken[b] <= room[b] {
        TakenAtMost(f, kps, quota, desired, n, b);
      }
      TotalAtMost(taken, room, BINS);
    }
  }

  /** Tracks kept plus features added: no bin ends above what is expected, unless it already was. */
  lemma {:induction false} BinsStayBalanced(f: Frame, weights: seq<real>, alive: seq<Point>, kps: seq<Point>,
                                            desired: nat, b: nat)
    requires Usable(f) && AllOnImage(f, kps) && NonNegative(alive)
    requires |weights| == BINS && b < BINS && Sum(weights, BINS) > 0.0
    ensures var expected, before := Expected(weights, |alive| + desired, b), InBin(f, alive, |alive|, b);
            var added := Taken(f, kps, Quotas(f, weights, alive, desired), desired, |kps|, b);
            before + added <= if expected > before then expected else before
  {
    WithinQuota(f, kps, Quotas(f, weights, alive, desired), desired, |kps|, b);
  }

  // ----- the selection said of the image -----

  /** The rectangle of bin b: the 64 bins lie row by row, eight to a row, from the upper left corner. */
  predicate InRectangle(f: Frame, b: int, p: Point) {
    && 0 <= b < 64
    && (b % 8 * f.binWidth) as real <= p.x < ((b % 8 + 1) * f.binWidth) as real
    && (b / 8 * f.binHeight) as real <= p.y < ((b / 8 + 1) * f.binHeight) as real
  }

  /** Not in the borders, and not where the mask forbids. */
  predicate MayBeSelected(f: Frame, p: Point) {
    && f.left as real <= p.x <= (f.width - 1 - f.right) as real
    && f.top as real <= p.y <= (f.height - 1 - f.bottom) as real
    && (f.mask.None? || !f.mask.value(p.y.Floor, p.x.Floor))
  }

  lemma {:induction false} CellIs(v: real, size: int, k: nat)
    requires v >= 0.0 && size > 0
    ensures Cell(v, size) == k <==> (k * size) as real <= v < ((k + 1) * size) as real
  {
    var width := size as real;
    var q := v / width;
    var low, high := k as real, (k + 1) as real;
    assert q * width == v;
    Between(v, q, width, low, high);
    ProductReal(k, size);
    ProductReal(k + 1, size);
    assert low * width == (k * size) as real && high * width == ((k + 1) * size) as real;
    FloorIs(q, k);
  }

  lemma {:induction false} Between(v: real, q: real, width: real, low: real, high: real)
    requires width > 0.0 && q * width == v
    ensures low <= q < high <==> low * width <= v < high * width
  {
    Scaled(low, q, width);
    Scaled(high, q, width);
  }

  lemma {:induction false} ProductReal(a: int, b: int)
    ensures (a * b) as real == a as real * b as real
  {
  }

  lemma {:induction false} FloorIs(q: real, k: int)
    ensures q.Floor == k <==> k as real <= q < (k + 1) as real
  {
  }

  lemma {:induction false} Scaled(a: real, b: real, width: real)
    requires width > 0.0
    ensures a <= b <==> a * width <= b * width
    ensures b < a <==> b * width < a * width
  {
    if a < b {
      assert (b - a) * width > 0.0;
    } else if b < a {
      assert (a - b) * width > 0.0;
    }
  }

  /** Bin b covers exactly its rectangle. */
  lemma {:induction false} BinCovers(f: Frame, p: Point, b: nat)
    requires Usable(f) && p.x >= 0.0 && p.y >= 0.0
    ensures BinOf(f, p) == Some(b) <==> InRectangle(f, b, p)
  {
    CellIs(p.x, f.binWidth, b % 8);
    CellIs(p.y, f.binHeight, b / 8);
    RowByRow(Cell(p.x, f.binWidth), Cell(p.y, f.binHeight), b);
  }

  lemma {:induction false} RowByRow(x: nat, y: nat, b: nat)
    ensures x < 8 && y < 8 && y * 8 + x == b <==> b < 64 && x == b % 8 && y == b / 8
  {
  }

  /** A whole number nearest to a share of the total, ties up. */
  predicate Nearest(e: int, total: nat, weight: real, sum: real) {
    (2 * e - 1) as real * sum <= 2.0 * total as real * weight < (2 * e + 1) as real * sum
  }

  lemma {:induction false} ShareIsNearest(total: nat, weight: real, sum: real)
    requires sum > 0.0
    ensures Nearest(Share(total, weight, sum), total, weight, sum)
  {
    var e := Share(total, weight, sum);
    var product := total as real * weight;
    var q := product / sum;
    assert q * sum == product;
    RoundedHalf(q, e);
    DoubleBetween(total as real, weight, product, q, sum, (2 * e - 1) as real, (2 * e + 1) as real);
  }

  lemma {:induction false} DoubleBetween(total: real, weight: real, product: real, q: real, sum: real, low: real, high: real)
    requires sum > 0.0 && product == total * weight && q * sum == product && low <= 2.0 * q < high
    ensures low * sum <= 2.0 * total * weight < high * sum
  {
    Scaled(low, 2.0 * q, sum);
    Scaled(high, 2.0 * q, sum);
    Doubled(q, sum, product);
    Doubled(total, weight, product);
  }

  lemma {:induction false} Doubled(q: real, sum: real, product: real)
    requires q * sum == product
    ensures 2.0 * q * sum == 2.0 * product
  {
  }

  lemma {:induction false} RoundedHalf(q: real, e: int)
    requires e as real <= q + 0.5 < e as real + 1.0
    ensures (2 * e - 1) as real <= 2.0 * q < (2 * e + 1) as real
  {
  }

  ghost function TracksIn(f: Frame, alive: seq<Point>, n: nat, b: int): set<int>
    requires n <= |alive|
  {
    set i | 0 <= i < n && InRectangle(f, b, alive[i])
  }

  lemma {:induction false} InBinIs(f: Frame, alive: seq<Point>, n: nat, b: nat)
    requires Usable(f) && NonNegative(alive) && n <= |alive|
    ensures InBin(f, alive, n, b) == |TracksIn(f, alive, n, b)|
  {
    if n == 0 {
      assert TracksIn(f, alive, n, b) == {};
    } else {
      InBinIs(f, alive, n - 1, b);
      BinCovers(f, alive[n - 1], b);
      var before := TracksIn(f, alive, n - 1, b);
      forall i ensures i in TracksIn(f, alive, n, b) <==> i in before || (i == n - 1 && InRectangle(f, b, alive[n - 1])) {
      }
      assert TracksIn(f, alive, n, b) == before + if InRectangle(f, b, alive[n - 1]) then {n - 1} else {};
    }
  }

  /** The share of bin b of all tracks, those kept and those desired. */
  predicate IsExpected(weights: seq<real>, alive: seq<Point>, desired: nat, b: int, e: int)
    requires |weights| == 64 && 0 <= b < 64
  {
    Nearest(e, |alive| + desired, weights[b], Sum(weights, 64))
  }

  function Lacking(e: int, tracks: nat): (r: nat)
    ensures r == (if e > tracks then e - tracks else 0)
  {
    if e > tracks then e - tracks else 0
  }

  /** What bin b lacks to that. */
  ghost predicate IsQuota(f: Frame, weights: seq<real>, alive: seq<Point>, desired: nat, b: int, q: int)
    requires |weights| == 64
  {
    && 0 <= b < 64
    && exists e: int :: IsExpected(weights, alive, desired, b, e) && q == Lacking(e, |TracksIn(f, alive, |alive|, b)|)
  }

  lemma {:induction false} QuotaIs(f: Frame, weights: seq<real>, alive: seq<Point>, desired: nat, b: nat)
    requires Usable(f) && NonNegative(alive) && |weights| == BINS && b < BINS && Sum(weights, BINS) > 0.0
    ensures IsQuota(f, weights, alive, desired, b, Quotas(f, weights, alive, desired)[b])
  {
    var e := Expected(weights, |alive| + desired, b);
    ShareIsNearest(|alive| + desired, weights[b], Sum(weights, BINS));
    InBinIs(f, alive, |alive|, b);
    assert IsExpected(weights, alive, desired, b, e);
  }

  lemma {:induction false} NearestOnce(e: int, e': int, total: nat, weight: real, sum: real)
    requires sum > 0.0 && Nearest(e, total, weight, sum) && Nearest(e', total, weight, sum)
    ensures e == e'
  {
    var x := 2.0 * total as real * weight;
    Squeezed((2 * e - 1) as real, (2 * e' + 1) as real, x, sum);
    Squeezed((2 * e' - 1) as real, (2 * e + 1) as real, x, sum);
  }

  lemma {:induction false} Squeezed(low: real, high: real, x: real, sum: real)
    requires sum > 0.0 && low * sum <= x < high * sum
    ensures low < high
  {
    Scaled(high, low, sum);
  }

  ghost predicate IsCompetitor(f: Frame, kps: seq<Point>, b: int, j: int) {
    0 <= j < |kps| && MayBeSelected(f, kps[j]) && InRectangle(f, b, kps[j])
  }

  ghost function CompetitorsBefore(f: Frame, kps: seq<Point>, b: int, i: int): set<int> {
    set j | 0 <= j < i && IsCompetitor(f, kps, b, j)
  }

  lemma {:induction false} BinIs(f: Frame, kps: seq<Point>, b: nat, j: nat)
    requires Usable(f) && AllOnImage(f, kps) && j < |kps|
    ensures Bin(f, kps, j) == Some(b) <==> IsCompetitor(f, kps, b, j)
  {
    assert OnImage(f, kps[j]);
    BinCovers(f, kps[j], b);
  }

  lemma {:induction false} CompetingIs(f: Frame, kps: seq<Point>, n: nat, b: nat)
    requires Usable(f) && AllOnImage(f, kps) && n <= |kps|
    ensures Competing(f, kps, n, b) == |CompetitorsBefore(f, kps, b, n)|
  {
    if n == 0 {
      assert CompetitorsBefore(f, kps, b, n) == {};
    } else {
      CompetingIs(f, kps, n - 1, b);
      BinIs(f, kps, b, n - 1);
      var before := CompetitorsBefore(f, kps, b, n - 1);
      forall i ensures i in CompetitorsBefore(f, kps, b, n) <==> i in before || (i == n - 1 && IsCompetitor(f, kps, b, i)) {
      }
      assert CompetitorsBefore(f, kps, b, n) == before + if IsCompetitor(f, kps, b, n - 1) then {n - 1} else {};
    }
  }

  ghost function Before(at: seq<nat>, i: nat): set<nat> {
    set j | j in at && j < i
  }

  /** Keypoint i is among the first in its bin, as many as the quota allows. */
  ghost predicate WithinBinQuota(f: Frame, weights: seq<real>, alive: seq<Point>, kps: seq<Point>, desired: nat, i: nat)
    requires |weights| == 64
  {
    exists b: int, q: int :: IsCompetitor(f, kps, b, i) && IsQuota(f, weights, alive, desired, b, q) &&
      |CompetitorsBefore(f, kps, b, i)| < q
  }

  /** The positions selected: those within the quota of their bin, as long as fewer than desired came before. */
  ghost predicate IsSelection(f: Frame, weights: seq<real>, alive: seq<Point>, kps: seq<Point>, desired: nat, at: seq<nat>)
    requires |weights| == 64
  {
    && (forall j, k :: 0 <= j < k < |at| ==> at[j] < at[k])
    && (forall i: nat :: i in at ==> i < |kps|)
    && forall i: nat :: i < |kps| ==>
         (i in at <==> |Before(at, i)| < desired && WithinBinQuota(f, weights, alive, kps, desired, i))
  }

  lemma {:induction false} QuotaOnce(f: Frame, weights: seq<real>, alive: seq<Point>, desired: nat, b: int, q: int, q': int)
    requires |weights| == BINS && Sum(weights, BINS) > 0.0
    requires IsQuota(f, weights, alive, desired, b, q) && IsQuota(f, weights, alive, desired, b, q')
    ensures q == q'
  {
    var tracks, total, sum := |TracksIn(f, alive, |alive|, b)|, |alive| + desired, Sum(weights, 64);
    var e: int :| IsExpected(weights, alive, desired, b, e) && q == Lacking(e, tracks);
    var e': int :| IsExpected(weights, alive, desired, b, e') && q' == Lacking(e', tracks);
    NearestOnce(e, e', total, weights[b], sum);
  }

  lemma {:induction false} PicksIs(f: Frame, weights: seq<real>, alive: seq<Point>, kps: seq<Point>, desired: nat, i: nat)
    requires Usable(f) && NonNegative(alive) && AllOnImage(f, kps) && |weights| == BINS && Sum(weights, BINS) > 0.0
    requires i < |kps|
    ensures var quota := Quotas(f, weights, alive, desired);
            Picks(f, kps, quota, desired, i) <==>
            Count(f, kps, quota, desired, i) < desired && WithinBinQuota(f, weights, alive, kps, desired, i)
  {
    var quota := Quotas(f, weights, alive, desired);
    if Count(f, kps, quota, desired, i) < desired {
      PicksStrongest(f, kps, quota, desired, i);
      if Bin(f, kps, i).Some? {
        var b := Bin(f, kps, i).value;
        BinIs(f, kps, b, i);
        CompetingIs(f, kps, i, b);
        QuotaIs(f, weights, alive, desired, b);
      }
      if WithinBinQuota(f, weights, alive, kps, desired, i) {
        var b: int, q: int :| IsCompetitor(f, kps, b, i) && IsQuota(f, weights, alive, desired, b, q) &&
          |CompetitorsBefore(f, kps, b, i)| < q;
        BinIs(f, kps, b, i);
        QuotaOnce(f, weights, alive, desired, b, q, quota[b]);
      }
    }
  }

  /** Which keypoints are picked. */
  function Flags(f: Frame, kps: seq<Point>, quota: seq<nat>, desired: nat): (r: seq<bool>)
    requires Fits(f, kps, quota)
    ensures |r| == |kps|
  {
    seq(|kps|, i requires 0 <= i < |kps| => Picks(f, kps, quota, desired, i))
  }

  /** The positions flagged among the first n. */
  function Where(flags: seq<bool>, n: nat): seq<nat>
    requires n <= |flags|
  {
    if n == 0 then [] else Where(flags, n - 1) + if flags[n - 1] then [n - 1] else []
  }

  lemma {:induction false} WhereAre(flags: seq<bool>, n: nat)
    requires n <= |flags|
    ensures var at := Where(flags, n);
            && (forall i: nat :: i in at <==> i < n && flags[i])
            && (forall j, k :: 0 <= j < k < |at| ==> at[j] < at[k])
  {
    if n > 0 {
      WhereAre(flags, n - 1);
      var before := Where(flags, n - 1);
      forall j | 0 <= j < |before| ensures before[j] < n - 1 {
        assert before[j] in before;
      }
    }
  }

  lemma {:induction false} WhereBefore(flags: seq<bool>, n: nat, i: nat)
    requires i <= n <= |flags|
    ensures |Before(Where(flags, n), i)| == |Where(flags, i)|
  {
    WhereAre(flags, n);
    var at := Where(flags, n);
    if i == 0 {
      assert Before(at, i) == {};
    } else {
      WhereBefore(flags, n, i - 1);
      forall j: nat ensures j in Before(at, i) <==> j in Before(at, i - 1) || (flags[i - 1] && j == i - 1) {
      }
      assert Before(at, i) == Before(at, i - 1) + if flags[i - 1] then {i - 1} else {};
    }
  }

  lemma {:induction false} SelectedAt(f: Frame, kps: seq<Point>, quota: seq<nat>, desired: nat, n: nat)
    requires Fits(f, kps, quota) && n <= |kps|
    ensures var at, selected := Where(Flags(f, kps, quota, desired), n), Selected(f, kps, quota, desired, n);
            && |selected| == |at| == Count(f, kps, quota, desired, n)
            && forall j :: 0 <= j < |at| ==> at[j] < |kps| && selected[j] == kps[at[j]]
  {
    if n > 0 {
      SelectedAt(f, kps, quota, desired, n - 1);
      assert Flags(f, kps, quota, desired)[n - 1] == Picks(f, kps, quota, desired, n - 1);
    }
  }

  /** The keypoints selected, in order. */
  ghost predicate AreSelected(f: Frame, weights: seq<real>, alive: seq<Point>, kps: seq<Point>, desired: nat,
                              selected: seq<Point>)
    requires |weights| == 64
  {
    exists at: seq<nat> ::
      && IsSelection(f, weights, alive, kps, desired, at)
      && |at| == |selected| && forall j :: 0 <= j < |at| ==> at[j] < |kps| && selected[j] == kps[at[j]]
  }

  /** The greedy pass with the quotas selects, in each bin, the strongest keypoints the bin lacks, and nothing once
      as many as desired are selected: said of rectangles, borders, mask and shares, and counting positions. */
  lemma {:induction false} SelectionIs(f: Frame, weights: seq<real>, alive: seq<Point>, kps: seq<Point>, desired: nat)
    requires Usable(f) && NonNegative(alive) && AllOnImage(f, kps) && |weights| == BINS && Sum(weights, BINS) > 0.0
    ensures AreSelected(f, weights, alive, kps, desired,
                        Selected(f, kps, Quotas(f, weights, alive, desired), desired, |kps|))
  {
    var quota := Quotas(f, weights, alive, desired);
    var at := Where(Flags(f, kps, quota, desired), |kps|);
    WhereAre(Flags(f, kps, quota, desired), |kps|);
    SelectedAt(f, kps, quota, desired, |kps|);
    forall i: nat | i < |kps|
      ensures i in at <==> |Before(at, i)| < desired && WithinBinQuota(f, weights, alive, kps, desired, i)
    {
      FlaggedIff(f, weights, alive, kps, desired, i);
    }
    assert IsSelection(f, weights, alive, kps, desired, at);
  }

  lemma {:induction false} FlaggedIff(f: Frame, weights: seq<real>, alive: seq<Point>, kps: seq<Point>, desired: nat, i: nat)
    requires Usable(f) && NonNegative(alive) && AllOnImage(f, kps) && |weights| == BINS && Sum(weights, BINS) > 0.0
    requires i < |kps|
    ensures var at := Where(Flags(f, kps, Quotas(f, weights, alive, desired), desired), |kps|);
            i in at <==> |Before(at, i)| < desired && WithinBinQuota(f, weights, alive, kps, desired, i)
  {
    var quota := Quotas(f, weights, alive, desired);
    var flags := Flags(f, kps, quota, desired);
    WhereAre(flags, |kps|);
    WhereBefore(flags, |kps|, i);
    SelectedAt(f, kps, quota, desired, i);
    PicksIs(f, weights, alive, kps, desired, i);
  }

  // ----- the code -----

  method CountAlive(f: Frame, alive: seq<Point>) returns (counts: array<nat>)
    requires Usable(f) && NonNegative(alive)
    ensures fresh(counts) && counts.Length == BINS
    ensures forall b: nat :: b < BINS ==> counts[b] == InBin(f, alive, |alive|, b)
  {
    counts := new nat[BINS](_ => 0);
    for i := 0 to |alive|
      invariant forall b: nat :: b < BINS ==> counts[b] == InBin(f, alive, i, b)
    {
      var bin := BinOf(f, alive[i]);
      if bin.Some? {
        counts[bin.value] := counts[bin.value] + 1;
      }
    }
  }

  method SumWeights(weights: seq<real>) returns (sum: real)
    requires |weights| == BINS
    ensures sum == Sum(weights, BINS)
  {
    sum := 0.0;
    for i := 0 to BINS
      invariant sum == Sum(weights, i)
    {
      sum := sum + weights[i];
    }
  }

  method ComputeQuotas(f: Frame, weights: seq<real>, alive: seq<Point>, desired: nat) returns (quotas: array<nat>)
    requires Usable(f) && NonNegative(alive) && |weights| == BINS && Sum(weights, BINS) > 0.0
    ensures fresh(quotas) && quotas[..] == Quotas(f, weights, alive, desired)
  {
    var gfttSum := SumWeights(weights);
    var fromPrevious := CountAlive(f, alive);
    quotas := new nat[BINS](_ => 0);
    ghost var want, counts := Quotas(f, weights, alive, desired), fromPrevious[..];
    for i := 0 to BINS
      invariant fromPrevious[..] == counts
      invariant forall b: nat :: b < i ==> quotas[b] == want[b]
      invariant forall b: nat :: i <= b < BINS ==> quotas[b] == 0
    {
      var expected := Share(|alive| + desired, weights[i], gfttSum);
      if expected > fromPrevious[i] {
        quotas[i] := expected - fromPrevious[i];
      }
    }
  }

  /** The pass over the keypoints. The bin's counter is bumped before the total is checked; the method
      returns then, so nobody sees it. */
  method PickFeatures(f: Frame, kps: seq<Point>, quotas: array<nat>, desired: nat) returns (selected: seq<Point>)
    requires quotas.Length == BINS && Fits(f, kps, quotas[..])
    ensures selected == Selected(f, kps, quotas[..], desired, |kps|)
  {
    var added := new nat[BINS](_ => 0);
    ghost var quota := quotas[..];
    selected := [];
    for i := 0 to |kps|
      invariant quotas[..] == quota && selected == Selected(f, kps, quota, desired, i)
      invariant forall b: nat :: b < BINS ==> added[b] == Taken(f, kps, quota, desired, i, b)
    {
      SelectedCount(f, kps, quota, desired, i);
      if !InBorder(f, kps[i]) || Masked(f, kps[i]) {
        continue;
      }
      var bin := BinOf(f, kps[i]);
      if bin.Some? && added[bin.value] < quotas[bin.value] {
        added[bin.value] := added[bin.value] + 1;
        if |selected| < desired {
          selected := selected + [kps[i]];
        } else {
          FullStaysFull(f, kps, quota, desired, i, |kps|);
          return;
        }
      }
    }
  }

  method SelectFeatures(f: Frame, weights: seq<real>, alive: seq<Point>, kps: seq<Point>, desired: nat)
    returns (selected: seq<Point>)
    requires Usable(f) && NonNegative(alive) && AllOnImage(f, kps) && |weights| == BINS && Sum(weights, BINS) > 0.0
    ensures var quota := Quotas(f, weights, alive, desired);
            && selected == Selected(f, kps, quota, desired, |kps|)
            && |selected| == Min(desired, Total(Room(f, kps, quota), BINS))
    ensures AreSelected(f, weights, alive, kps, desired, selected)
  {
    var quotas := ComputeQuotas(f, weights, alive, desired);
    selected := PickFeatures(f, kps, quotas, desired);
    HowMany(f, kps, quotas[..], desired);
    SelectionIs(f, weights, alive, kps, desired);
  }
}
