/** RGB/depth association of the TUM example (examples/tum/dataset_utils.py).

    Timestamps are reals; file names are opaque strings. The association walks two lists with two
    cursors. The specification is not the walk itself but optimality: on time-sorted lists no
    one-to-one matching within the threshold, crossing or not, has more pairs. */
module PairMatching {
  import opened Wrappers
  import opened Reals

  datatype Stamped = Stamped(time: real, file: string)
  datatype Pair = Pair(rgb: Stamped, depth: Stamped)

  predicate Close(a: Stamped, b: Stamped, maxDiff: real) {
    Abs(a.time - b.time) < maxDiff
  }

  ghost predicate TimeSorted(s: seq<Stamped>) {
    forall i, j :: 0 <= i < j < |s| ==> s[i].time <= s[j].time
  }

  // ----- matchings -----

  /** A set of index pairs is a matching of the suffixes rgb[i..] and depth[j..] when all its pairs
      are within the threshold and no index is used twice. Nothing forbids crossing pairs. */
  ghost predicate IsMatchingFrom(rgb: seq<Stamped>, depth: seq<Stamped>, maxDiff: real,
                                 i: nat, j: nat, m: set<(nat, nat)>)
  {
    && (forall p <- m :: i <= p.0 < |rgb| && j <= p.1 < |depth| && Close(rgb[p.0], depth[p.1], maxDiff))
    && (forall p <- m, q <- m :: p.0 == q.0 || p.1 == q.1 ==> p == q)
  }

  ghost predicate IsMatching(rgb: seq<Stamped>, depth: seq<Stamped>, maxDiff: real, m: set<(nat, nat)>) {
    IsMatchingFrom(rgb, depth, maxDiff, 0, 0, m)
  }

  /** The index pairs the two-cursor walk selects when it stands at (i, j). */
  function Walk(rgb: seq<Stamped>, depth: seq<Stamped>, maxDiff: real, i: nat, j: nat): (w: seq<(nat, nat)>)
    requires i <= |rgb| && j <= |depth|
    decreases |rgb| - i + |depth| - j
  {
    if i == |rgb| || j == |depth| then []
    else if Close(rgb[i], depth[j], maxDiff) then [(i, j)] + Walk(rgb, depth, maxDiff, i + 1, j + 1)
    else if rgb[i].time < depth[j].time then Walk(rgb, depth, maxDiff, i + 1, j)
    else Walk(rgb, depth, maxDiff, i, j + 1)
  }

  /** Order-preserving: both cursors strictly advance from one selected pair to the next. */
  ghost predicate StrictlyAdvancing(w: seq<(nat, nat)>) {
    forall a, b :: 0 <= a < b < |w| ==> w[a].0 < w[b].0 && w[a].1 < w[b].1
  }

  /** Selected pairs lie in the suffixes walked and are within the threshold, sorted or not. */
  lemma {:induction false} WalkIsClose(rgb: seq<Stamped>, depth: seq<Stamped>, maxDiff: real, i: nat, j: nat)
    requires i <= |rgb| && j <= |depth|
    ensures forall p :: p in Walk(rgb, depth, maxDiff, i, j) ==>
              i <= p.0 < |rgb| && j <= p.1 < |depth| && Close(rgb[p.0], depth[p.1], maxDiff)
    decreases |rgb| - i + |depth| - j
  {
    if i < |rgb| && j < |depth| {
      if Close(rgb[i], depth[j], maxDiff) {
        WalkIsClose(rgb, depth, maxDiff, i + 1, j + 1);
      } else if rgb[i].time < depth[j].time {
        WalkIsClose(rgb, depth, maxDiff, i + 1, j);
      } else {
        WalkIsClose(rgb, depth, maxDiff, i, j + 1);
      }
    }
  }

  /** The selection is order-preserving and one-to-one, sorted or not. */
  lemma {:induction false} WalkAdvances(rgb: seq<Stamped>, depth: seq<Stamped>, maxDiff: real, i: nat, j: nat)
    requires i <= |rgb| && j <= |depth|
    ensures StrictlyAdvancing(Walk(rgb, depth, maxDiff, i, j))
    decreases |rgb| - i + |depth| - j
  {
    if i < |rgb| && j < |depth| {
      if Close(rgb[i], depth[j], maxDiff) {
        WalkAdvances(rgb, depth, maxDiff, i + 1, j + 1);
        WalkIsClose(rgb, depth, maxDiff, i + 1, j + 1);
        var rest := Walk(rgb, depth, maxDiff, i + 1, j + 1);
        assert forall a :: 0 <= a < |rest| ==> rest[a] in rest;
      } else if rgb[i].time < depth[j].time {
        WalkAdvances(rgb, depth, maxDiff, i + 1, j);
      } else {
        WalkAdvances(rgb, depth, maxDiff, i, j + 1);
      }
    }
  }

  /** Hence the walk's own pairs, as a set, are a matching with as many pairs as the walk is long. */
  lemma {:induction false} WalkIsMatching(rgb: seq<Stamped>, depth: seq<Stamped>, maxDiff: real)
    ensures var w := Walk(rgb, depth, maxDiff, 0, 0);
            var m := set a | 0 <= a < |w| :: w[a];
            IsMatching(rgb, depth, maxDiff, m) && |m| == |w|
  {
    WalkIsClose(rgb, depth, maxDiff, 0, 0);
    WalkAdvances(rgb, depth, maxDiff, 0, 0);
    AdvancingIsDuplicateFree(Walk(rgb, depth, maxDiff, 0, 0));
  }

  lemma {:induction false} AdvancingIsDuplicateFree(w: seq<(nat, nat)>)
    requires StrictlyAdvancing(w)
    ensures |set a | 0 <= a < |w| :: w[a]| == |w|
  {
    var m := set a | 0 <= a < |w| :: w[a];
    if w == [] {
      assert m == {};
    } else {
      var init := w[..|w| - 1];
      AdvancingIsDuplicateFree(init);
      var before, last := set a | 0 <= a < |init| :: init[a], w[|w| - 1];
      forall p ensures p in m <==> p in before || p == last {
        if p in before {
          var a :| 0 <= a < |init| && init[a] == p;
          assert w[a] == p;
        }
      }
      assert m == before + {last};
    }
  }

  /** Pairs that use neither cursor stay a matching once both cursors advance. */
  lemma {:induction false} BeyondBoth(rgb: seq<Stamped>, depth: seq<Stamped>, maxDiff: real, i: nat, j: nat, m: set<(nat, nat)>)
    returns (rest: set<(nat, nat)>)
    requires IsMatchingFrom(rgb, depth, maxDiff, i, j, m)
    ensures rest == set p | p in m && p.0 != i && p.1 != j
    ensures IsMatchingFrom(rgb, depth, maxDiff, i + 1, j + 1, rest)
  {
    rest := set p | p in m && p.0 != i && p.1 != j;
  }

  /** Uncrossing: if i is paired with b and j with a, then a and b are themselves close. */
  lemma {:induction false} Uncross(rgb: seq<Stamped>, depth: seq<Stamped>, maxDiff: real, i: nat, j: nat, a: nat, b: nat)
    requires TimeSorted(rgb) && TimeSorted(depth)
    requires i < a < |rgb| && j < b < |depth|
    requires Close(rgb[i], depth[b], maxDiff) && Close(rgb[a], depth[j], maxDiff)
    ensures Close(rgb[a], depth[b], maxDiff)
  {
    assert rgb[i].time <= rgb[a].time && depth[j].time <= depth[b].time;
  }

  /** Exchange step: when (i, j) is within the threshold, a matching of the suffixes at (i, j) yields
      one of the suffixes at (i+1, j+1) that has at most one pair less. */
  lemma {:induction false} Exchange(rgb: seq<Stamped>, depth: seq<Stamped>, maxDiff: real, i: nat, j: nat, m: set<(nat, nat)>)
    returns (rest: set<(nat, nat)>)
    requires TimeSorted(rgb) && TimeSorted(depth)
    requires i < |rgb| && j < |depth| && Close(rgb[i], depth[j], maxDiff)
    requires IsMatchingFrom(rgb, depth, maxDiff, i, j, m)
    ensures IsMatchingFrom(rgb, depth, maxDiff, i + 1, j + 1, rest)
    ensures |m| <= |rest| + 1
  {
    rest := BeyondBoth(rgb, depth, maxDiff, i, j, m);
    if p :| p in m && p.0 == i {
      if q :| q in m && q.1 == j {
        Covered(m, rest, i, j, p, q);
        if p != q {
          Uncross(rgb, depth, maxDiff, i, j, q.0, p.1);
          rest := AddPair(rgb, depth, maxDiff, i + 1, j + 1, m, p, q, rest);
        }
      } else {
        Covered(m, rest, i, j, p, p);
      }
    } else if q :| q in m && q.1 == j {
      Covered(m, rest, i, j, q, q);
    } else {
      assert rest == m;
    }
  }

  /** What is left after removing the users of both cursors misses at most those users. */
  lemma {:induction false} Covered(m: set<(nat, nat)>, rest: set<(nat, nat)>, i: nat, j: nat, p: (nat, nat), q: (nat, nat))
    requires forall r <- m, t <- m :: r.0 == t.0 || r.1 == t.1 ==> r == t
    requires rest == set r | r in m && r.0 != i && r.1 != j
    requires p in m && (p.0 == i || p.1 == j)
    requires q in m && (q.0 == i || q.1 == j)
    requires forall r <- m :: (r.0 == i ==> p.0 == i || q.0 == i) && (r.1 == j ==> p.1 == j || q.1 == j)
    ensures p !in rest && q !in rest && m == rest + {p, q}
    ensures |m| == |rest| + if p == q then 1 else 2
  {
    assert m == rest + {p, q};
    assert {p, q} !! rest;
    assert |{p, q}| == if p == q then 1 else 2;
  }

  lemma {:induction false} AddPair(rgb: seq<Stamped>, depth: seq<Stamped>, maxDiff: real, i: nat, j: nat,
                m: set<(nat, nat)>, p: (nat, nat), q: (nat, nat), rest: set<(nat, nat)>)
    returns (more: set<(nat, nat)>)
    requires i <= q.0 < |rgb| && j <= p.1 < |depth| && Close(rgb[q.0], depth[p.1], maxDiff)
    requires IsMatchingFrom(rgb, depth, maxDiff, i, j, rest)
    requires forall r <- m, t <- m :: r.0 == t.0 || r.1 == t.1 ==> r == t
    requires p in m && q in m && rest <= m && p !in rest && q !in rest
    ensures IsMatchingFrom(rgb, depth, maxDiff, i, j, more) && |more| == |rest| + 1
  {
    more := rest + {(q.0, p.1)};
    assert forall r <- rest :: r.0 != q.0 && r.1 != p.1;
    assert (q.0, p.1) !in rest;
  }

  /** Optimality: on sorted lists no matching of the suffixes is larger than the walk. */
  lemma {:induction false} WalkIsMaximum(rgb: seq<Stamped>, depth: seq<Stamped>, maxDiff: real,
                                         i: nat, j: nat, m: set<(nat, nat)>)
    requires TimeSorted(rgb) && TimeSorted(depth)
    requires i <= |rgb| && j <= |depth|
    requires IsMatchingFrom(rgb, depth, maxDiff, i, j, m)
    ensures |m| <= |Walk(rgb, depth, maxDiff, i, j)|
    decreases |rgb| - i + |depth| - j
  {
    if i == |rgb| || j == |depth| {
      assert m == {};
    } else if Close(rgb[i], depth[j], maxDiff) {
      var rest := Exchange(rgb, depth, maxDiff, i, j, m);
      WalkIsMaximum(rgb, depth, maxDiff, i + 1, j + 1, rest);
    } else if rgb[i].time < depth[j].time {
      // rgb[i] is too early for depth[j], hence for everything after it
      assert forall p <- m :: p.0 != i;
      WalkIsMaximum(rgb, depth, maxDiff, i + 1, j, m);
    } else {
      assert forall p <- m :: p.1 != j;
      WalkIsMaximum(rgb, depth, maxDiff, i, j + 1, m);
    }
  }

  /** Without sorting optimality fails: one late rgb stamp first hides a match that exists. */
  lemma {:induction false} UnsortedWalkMayMiss()
    ensures var rgb := [Stamped(9.0, "a"), Stamped(1.0, "b")];
            var depth := [Stamped(1.0, "c")];
            Walk(rgb, depth, 0.5, 0, 0) == [] && IsMatching(rgb, depth, 0.5, {(1, 0)})
  {
    var rgb := [Stamped(9.0, "a"), Stamped(1.0, "b")];
    var depth := [Stamped(1.0, "c")];
    assert Walk(rgb, depth, 0.5, 0, 1) == [];
    assert Walk(rgb, depth, 0.5, 0, 0) == [];
  }

  function PairsAt(rgb: seq<Stamped>, depth: seq<Stamped>, w: seq<(nat, nat)>): (r: seq<Pair>)
    requires InBoth(rgb, depth, w)
  {
    seq(|w|, a requires 0 <= a < |w| => Pair(rgb[w[a].0], depth[w[a].1]))
  }

  lemma {:induction false} WalkBeatsEveryMatching(rgb: seq<Stamped>, depth: seq<Stamped>, maxDiff: real)
    requires TimeSorted(rgb) && TimeSorted(depth)
    ensures forall m :: IsMatching(rgb, depth, maxDiff, m) ==> |m| <= |Walk(rgb, depth, maxDiff, 0, 0)|
  {
    forall m | IsMatching(rgb, depth, maxDiff, m) ensures |m| <= |Walk(rgb, depth, maxDiff, 0, 0)| {
      WalkIsMaximum(rgb, depth, maxDiff, 0, 0, m);
    }
  }

  ghost predicate InBoth(rgb: seq<Stamped>, depth: seq<Stamped>, w: seq<(nat, nat)>) {
    forall a :: 0 <= a < |w| ==> w[a].0 < |rgb| && w[a].1 < |depth|
  }

  lemma {:induction false} SelectedAreClose(rgb: seq<Stamped>, depth: seq<Stamped>, maxDiff: real)
    ensures var w := Walk(rgb, depth, maxDiff, 0, 0);
            && InBoth(rgb, depth, w) && StrictlyAdvancing(w)
            && forall a :: 0 <= a < |w| ==> Close(PairsAt(rgb, depth, w)[a].rgb, PairsAt(rgb, depth, w)[a].depth, maxDiff)
  {
    var w := Walk(rgb, depth, maxDiff, 0, 0);
    WalkAdvances(rgb, depth, maxDiff, 0, 0);
    WalkIsClose(rgb, depth, maxDiff, 0, 0);
    assert forall a :: 0 <= a < |w| ==> w[a] in w;
  }

  /** Pairs of positions, no position used twice, the two times less than the threshold apart. */
  ghost predicate Associates(rgb: seq<Stamped>, depth: seq<Stamped>, maxDiff: real, m: set<(nat, nat)>) {
    && (forall p <- m :: p.0 < |rgb| && p.1 < |depth| && -maxDiff < rgb[p.0].time - depth[p.1].time < maxDiff)
    && (forall p <- m, q <- m :: p.0 == q.0 || p.1 == q.1 ==> p == q)
  }

  lemma {:induction false} AssociatesIff(rgb: seq<Stamped>, depth: seq<Stamped>, maxDiff: real, m: set<(nat, nat)>)
    ensures Associates(rgb, depth, maxDiff, m) <==> IsMatching(rgb, depth, maxDiff, m)
  {
  }

  /** No such set has more pairs than this. */
  ghost predicate IsMost(rgb: seq<Stamped>, depth: seq<Stamped>, maxDiff: real, n: nat) {
    forall m :: Associates(rgb, depth, maxDiff, m) ==> |m| <= n
  }

  lemma {:induction false} WalkIsMost(rgb: seq<Stamped>, depth: seq<Stamped>, maxDiff: real)
    requires TimeSorted(rgb) && TimeSorted(depth)
    ensures IsMost(rgb, depth, maxDiff, |Walk(rgb, depth, maxDiff, 0, 0)|)
  {
    WalkBeatsEveryMatching(rgb, depth, maxDiff);
    forall m | Associates(rgb, depth, maxDiff, m) ensures |m| <= |Walk(rgb, depth, maxDiff, 0, 0)| {
      AssociatesIff(rgb, depth, maxDiff, m);
    }
  }

  /** What is returned for one pair of positions: both time stamps and both file names, less than the threshold
      apart. */
  ghost predicate IsPairOf(pair: Pair, rgb: seq<Stamped>, depth: seq<Stamped>, maxDiff: real, at: (nat, nat)) {
    && at.0 < |rgb| && at.1 < |depth|
    && pair.rgb.time == rgb[at.0].time && pair.rgb.file == rgb[at.0].file
    && pair.depth.time == depth[at.1].time && pair.depth.file == depth[at.1].file
    && -maxDiff < pair.rgb.time - pair.depth.time < maxDiff
  }

  ghost predicate ArePairsOf(pairs: seq<Pair>, rgb: seq<Stamped>, depth: seq<Stamped>, maxDiff: real, w: seq<(nat, nat)>) {
    |pairs| == |w| && forall a :: 0 <= a < |w| ==> IsPairOf(pairs[a], rgb, depth, maxDiff, w[a])
  }

  lemma {:induction false} PairsAreThose(rgb: seq<Stamped>, depth: seq<Stamped>, maxDiff: real)
    ensures var w := Walk(rgb, depth, maxDiff, 0, 0);
            InBoth(rgb, depth, w) && ArePairsOf(PairsAt(rgb, depth, w), rgb, depth, maxDiff, w)
  {
    var w := Walk(rgb, depth, maxDiff, 0, 0);
    SelectedAreClose(rgb, depth, maxDiff);
    forall a | 0 <= a < |w| ensures IsPairOf(PairsAt(rgb, depth, w)[a], rgb, depth, maxDiff, w[a]) {
      assert Close(PairsAt(rgb, depth, w)[a].rgb, PairsAt(rgb, depth, w)[a].depth, maxDiff);
    }
  }

  method FindMatchingPairs(rgb: seq<Stamped>, depth: seq<Stamped>, maxDiff: real)
    returns (pairs: seq<Pair>, ghost chosen: seq<(nat, nat)>)
    ensures chosen == Walk(rgb, depth, maxDiff, 0, 0) && StrictlyAdvancing(chosen)
    ensures InBoth(rgb, depth, chosen) && pairs == PairsAt(rgb, depth, chosen)
    ensures forall a :: 0 <= a < |pairs| ==> Close(pairs[a].rgb, pairs[a].depth, maxDiff)
    ensures ArePairsOf(pairs, rgb, depth, maxDiff, chosen)
    ensures TimeSorted(rgb) && TimeSorted(depth) ==> IsMost(rgb, depth, maxDiff, |pairs|)
  {
    var i, j := 0, 0;
    pairs := [];
    chosen := [];
    while i < |rgb| && j < |depth|
      invariant i <= |rgb| && j <= |depth|
      invariant chosen + Walk(rgb, depth, maxDiff, i, j) == Walk(rgb, depth, maxDiff, 0, 0)
      invariant InBoth(rgb, depth, chosen) && pairs == PairsAt(rgb, depth, chosen)
      decreases |rgb| - i + |depth| - j
    {
      if Abs(rgb[i].time - depth[j].time) < maxDiff {
        pairs := pairs + [Pair(rgb[i], depth[j])];
        chosen := chosen + [(i, j)];
        i := i + 1;
        j := j + 1;
      } else if rgb[i].time < depth[j].time {
        i := i + 1;
      } else {
        j := j + 1;
      }
    }
    SelectedAreClose(rgb, depth, maxDiff);
    assert chosen == Walk(rgb, depth, maxDiff, 0, 0);
    PairsAreThose(rgb, depth, maxDiff);
    if TimeSorted(rgb) && TimeSorted(depth) {
      WalkIsMost(rgb, depth, maxDiff);
    }
  }

  // ----- the time-gap filter -----

  predicate HasTimeGap(current: real, previous: Option<real>, maxGap: real) {
    previous.Some? && current - previous.value > maxGap
  }

  /** The gap is measured to the previous matched pair, kept or not. */
  predicate GapBefore(times: seq<real>, k: nat, maxGap: real)
    requires k < |times|
  {
    k > 0 && times[k] - times[k - 1] > maxGap
  }

  /** Indices among the first n that the filter keeps. */
  function Kept(times: seq<real>, maxGap: real, n: nat): (r: seq<nat>)
    requires n <= |times|
    ensures forall a :: 0 <= a < |r| ==> r[a] < n
  {
    if n == 0 then [] else
    Kept(times, maxGap, n - 1) + if GapBefore(times, n - 1, maxGap) then [] else [n - 1]
  }

  function RgbTimes(pairs: seq<Pair>): (r: seq<real>)
    ensures |r| == |pairs|
  {
    seq(|pairs|, a requires 0 <= a < |pairs| => pairs[a].rgb.time)
  }

  function Filtered(pairs: seq<Pair>, maxGap: real): seq<Pair> {
    var kept := Kept(RgbTimes(pairs), maxGap, |pairs|);
    seq(|kept|, a requires 0 <= a < |kept| => pairs[kept[a]])
  }

  /** The pairs kept, in order: those that do not come more than the maximum gap after the pair before. */
  ghost predicate KeepsSmallGaps(pairs: seq<Pair>, maxGap: real, filtered: seq<Pair>) {
    exists kept: seq<nat> :: SmallGapsAt(pairs, maxGap, kept) && ArePairsAt(pairs, kept, filtered)
  }

  ghost predicate SmallGapsAt(pairs: seq<Pair>, maxGap: real, kept: seq<nat>) {
    && (forall a, b :: 0 <= a < b < |kept| ==> kept[a] < kept[b])
    && (forall k: nat :: k in kept <==> SmallGap(pairs, k, maxGap))
  }

  ghost predicate ArePairsAt(pairs: seq<Pair>, kept: seq<nat>, filtered: seq<Pair>) {
    && |kept| == |filtered|
    && (forall a :: 0 <= a < |kept| ==> kept[a] < |pairs| && filtered[a] == pairs[kept[a]])
  }

  predicate SmallGap(pairs: seq<Pair>, k: nat, maxGap: real) {
    k < |pairs| && (k > 0 ==> pairs[k].rgb.time <= pairs[k - 1].rgb.time + maxGap)
  }

  lemma {:induction false} FilterKeepsSmallGaps(pairs: seq<Pair>, maxGap: real)
    ensures KeepsSmallGaps(pairs, maxGap, Filtered(pairs, maxGap))
  {
    KeptAreSmall(pairs, maxGap);
    assert ArePairsAt(pairs, Kept(RgbTimes(pairs), maxGap, |pairs|), Filtered(pairs, maxGap));
  }

  lemma {:induction false} KeptAreSmall(pairs: seq<Pair>, maxGap: real)
    ensures SmallGapsAt(pairs, maxGap, Kept(RgbTimes(pairs), maxGap, |pairs|))
  {
    var times := RgbTimes(pairs);
    KeptMembers(times, maxGap, |pairs|);
    forall k: nat | k < |pairs| ensures GapBefore(times, k, maxGap) <==> !SmallGap(pairs, k, maxGap) {
    }
  }

  method FilterTimeGaps(pairs: seq<Pair>, maxGap: real) returns (filtered: seq<Pair>)
    ensures filtered == Filtered(pairs, maxGap)
    ensures KeepsSmallGaps(pairs, maxGap, filtered)
  {
    FilterKeepsSmallGaps(pairs, maxGap);
    ghost var times := RgbTimes(pairs);
    filtered := [];
    var prevTime: Option<real> := None;
    for k := 0 to |pairs|
      invariant prevTime == if k == 0 then None else Some(pairs[k - 1].rgb.time)
      invariant var kept := Kept(times, maxGap, k);
                filtered == seq(|kept|, a requires 0 <= a < |kept| => pairs[kept[a]])
    {
      if !HasTimeGap(pairs[k].rgb.time, prevTime, maxGap) {
        filtered := filtered + [pairs[k]];
      }
      prevTime := Some(pairs[k].rgb.time);
    }
  }

  /** What the docstring calls the maximum allowed gap between consecutive frames, read on the output. */
  ghost predicate NeighboursWithinGap(times: seq<real>, kept: seq<nat>, maxGap: real)
    requires forall a :: 0 <= a < |kept| ==> kept[a] < |times|
  {
    forall a :: 0 < a < |kept| ==> times[kept[a]] - times[kept[a - 1]] <= maxGap
  }

  /** Checkable before the call: once a pair is dropped, every later pair is dropped as well. */
  ghost predicate OnlyTailDropped(times: seq<real>, maxGap: real) {
    forall k :: 0 <= k < |times| - 1 && GapBefore(times, k, maxGap) ==> GapBefore(times, k + 1, maxGap)
  }

  lemma {:induction false} KeptMembers(times: seq<real>, maxGap: real, n: nat)
    requires n <= |times|
    ensures var kept := Kept(times, maxGap, n);
            && (forall k: nat :: k in kept <==> k < n && !GapBefore(times, k, maxGap))
            && (forall a, b :: 0 <= a < b < |kept| ==> kept[a] < kept[b])
  {
    if n > 0 {
      KeptMembers(times, maxGap, n - 1);
      assert forall k: nat :: k in Kept(times, maxGap, n) <==>
        k in Kept(times, maxGap, n - 1) || (k == n - 1 && !GapBefore(times, k, maxGap));
    }
  }

  /** A pair kept right after a dropped one exposes the gap in the output. */
  lemma {:induction false} KeptAfterDropped(times: seq<real>, maxGap: real, kept: seq<nat>, k: nat) returns (a: nat)
    requires forall i, j :: 0 <= i < j < |times| ==> times[i] <= times[j]
    requires forall a :: 0 <= a < |kept| ==> kept[a] < |times|
    requires forall n: nat :: n in kept <==> n < |times| && !GapBefore(times, n, maxGap)
    requires forall a, b :: 0 <= a < b < |kept| ==> kept[a] < kept[b]
    requires k + 1 < |times| && GapBefore(times, k, maxGap) && !GapBefore(times, k + 1, maxGap)
    ensures 0 < a < |kept| && times[kept[a]] - times[kept[a - 1]] > maxGap
  {
    assert k + 1 in kept && 0 in kept;
    a :| 0 <= a < |kept| && kept[a] == k + 1;
    assert a > 0;
    var p := kept[a - 1];
    assert p in kept && p < k;
    assert times[p] <= times[k - 1] && times[k] <= times[k + 1];
  }

  lemma {:induction false} TailGivesPromise(times: seq<real>, maxGap: real, kept: seq<nat>, a: nat)
    requires forall a :: 0 <= a < |kept| ==> kept[a] < |times|
    requires forall n: nat :: n in kept <==> n < |times| && !GapBefore(times, n, maxGap)
    requires forall a, b :: 0 <= a < b < |kept| ==> kept[a] < kept[b]
    requires OnlyTailDropped(times, maxGap)
    requires 0 < a < |kept|
    ensures times[kept[a]] - times[kept[a - 1]] <= maxGap
  {
    var hi := kept[a];
    assert hi in kept;
    assert !GapBefore(times, hi, maxGap) && hi > kept[a - 1];
    var before := hi - 1;
    assert !GapBefore(times, before, maxGap);
    assert before in kept;
    var b :| 0 <= b < |kept| && kept[b] == before;
    assert b == a - 1;
  }

  /** The documented promise holds of the filter's output exactly when only a tail was dropped. */
  lemma {:induction false} GapPromiseIff(times: seq<real>, maxGap: real)
    requires forall i, j :: 0 <= i < j < |times| ==> times[i] <= times[j]
    ensures NeighboursWithinGap(times, Kept(times, maxGap, |times|), maxGap) <==> OnlyTailDropped(times, maxGap)
  {
    var kept := Kept(times, maxGap, |times|);
    KeptMembers(times, maxGap, |times|);
    if NeighboursWithinGap(times, kept, maxGap) {
      forall k | 0 <= k < |times| - 1 && GapBefore(times, k, maxGap) ensures GapBefore(times, k + 1, maxGap) {
        if !GapBefore(times, k + 1, maxGap) {
          var a := KeptAfterDropped(times, maxGap, kept, k);
        }
      }
    }
    if OnlyTailDropped(times, maxGap) {
      forall a | 0 < a < |kept| ensures times[kept[a]] - times[kept[a - 1]] <= maxGap {
        TailGivesPromise(times, maxGap, kept, a);
      }
    }
  }

  /** A run on which the promise fails: the pair after the gap is dropped, the next one is kept. */
  lemma {:induction false} GapPromiseFails()
    ensures var times := [0.0, 10.0, 10.1];
            && Kept(times, 0.5, 3) == [0, 2]
            && !NeighboursWithinGap(times, Kept(times, 0.5, 3), 0.5)
  {
    var times := [0.0, 10.0, 10.1];
    assert Kept(times, 0.5, 1) == [0];
    assert Kept(times, 0.5, 2) == [0];
    var kept := Kept(times, 0.5, 3);
    assert kept == [0, 2];
    assert times[kept[1]] - times[kept[0]] > 0.5;
  }

  // ----- both together -----

  /** The docstring's promise, on a list of pairs. */
  ghost predicate GapsBounded(pairs: seq<Pair>, maxGap: real) {
    forall a :: 0 < a < |pairs| ==> pairs[a].rgb.time - pairs[a - 1].rgb.time <= maxGap
  }

  lemma {:induction false} MatchedTimesSorted(rgb: seq<Stamped>, depth: seq<Stamped>, w: seq<(nat, nat)>)
    requires TimeSorted(rgb) && InBoth(rgb, depth, w) && StrictlyAdvancing(w)
    ensures var times := RgbTimes(PairsAt(rgb, depth, w)); forall i, j :: 0 <= i < j < |times| ==> times[i] <= times[j]
  {
  }

  lemma {:induction false} FilteredGaps(pairs: seq<Pair>, maxGap: real)
    requires forall i, j :: 0 <= i < j < |pairs| ==> pairs[i].rgb.time <= pairs[j].rgb.time
    ensures GapsBounded(Filtered(pairs, maxGap), maxGap) <==> OnlyTailDropped(RgbTimes(pairs), maxGap)
  {
    var times, out := RgbTimes(pairs), Filtered(pairs, maxGap);
    var kept := Kept(times, maxGap, |times|);
    GapPromiseIff(times, maxGap);
    assert forall a :: 0 <= a < |out| ==> out[a].rgb.time == times[kept[a]];
  }

  /** Pairs matched in order, and on sorted lists as many as possible. */
  ghost predicate AreMatched(pairs: seq<Pair>, rgb: seq<Stamped>, depth: seq<Stamped>, maxDiff: real) {
    && (exists w: seq<(nat, nat)> :: StrictlyAdvancing(w) && ArePairsOf(pairs, rgb, depth, maxDiff, w))
    && (TimeSorted(rgb) && TimeSorted(depth) ==> IsMost(rgb, depth, maxDiff, |pairs|))
  }

  lemma {:induction false} WalkIsMatched(rgb: seq<Stamped>, depth: seq<Stamped>, maxDiff: real)
    ensures var w := Walk(rgb, depth, maxDiff, 0, 0);
            InBoth(rgb, depth, w) && AreMatched(PairsAt(rgb, depth, w), rgb, depth, maxDiff)
  {
    SelectedAreClose(rgb, depth, maxDiff);
    PairsAreThose(rgb, depth, maxDiff);
    if TimeSorted(rgb) && TimeSorted(depth) {
      WalkIsMost(rgb, depth, maxDiff);
    }
  }

  /** get_matched_rgbd_pairs, behind the reading of the files. What it returns keeps the promise on the gap
      exactly when, of the matched pairs, only a tail is dropped. */
  method GetMatchedRgbdPairs(rgb: seq<Stamped>, depth: seq<Stamped>, maxDiff: real, maxGap: real)
    returns (pairs: seq<Pair>, ghost matched: seq<Pair>)
    ensures var w := Walk(rgb, depth, maxDiff, 0, 0);
            InBoth(rgb, depth, w) && matched == PairsAt(rgb, depth, w) && pairs == Filtered(matched, maxGap)
    ensures AreMatched(matched, rgb, depth, maxDiff) && KeepsSmallGaps(matched, maxGap, pairs)
    ensures forall a :: 0 <= a < |pairs| ==> Close(pairs[a].rgb, pairs[a].depth, maxDiff)
    ensures TimeSorted(rgb) ==> (GapsBounded(pairs, maxGap) <==> OnlyTailDropped(RgbTimes(matched), maxGap))
  {
    WalkIsMatched(rgb, depth, maxDiff);
    FilterKeepsSmallGaps([], maxGap);
    if rgb == [] || depth == [] {
      return [], [];
    }
    ghost var chosen;
    var all;
    all, chosen := FindMatchingPairs(rgb, depth, maxDiff);
    matched := all;
    pairs := FilterTimeGaps(all, maxGap);
    if TimeSorted(rgb) {
      MatchedTimesSorted(rgb, depth, chosen);
      FilteredGaps(all, maxGap);
    }
  }
}
