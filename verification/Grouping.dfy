/** What regrouping observations by point means (libs/cuda_modules/sba.h, the layout comment above
    original_observation_index): all observations of point 0 in their original order, then all of
    point 1, and so on. Nothing here counts or keeps cursors; the counting sort of `set` is proved
    against these definitions in BundleProblem. */
module Grouping {

  /** Positions among the first n whose point id is i, in increasing order. */
  function Occurrences(ids: seq<int>, i: int, n: nat): (r: seq<int>)
    requires n <= |ids|
  {
    if n == 0 then []
    else if ids[n - 1] == i then Occurrences(ids, i, n - 1) + [n - 1]
    else Occurrences(ids, i, n - 1)
  }

  function Slice(ids: seq<int>, i: int): seq<int> {
    Occurrences(ids, i, |ids|)
  }

  /** The slices of points 0..m-1, one after the other. */
  function Grouped(ids: seq<int>, m: nat): seq<int> {
    if m == 0 then [] else Grouped(ids, m - 1) + Slice(ids, m - 1)
  }

  /** Where the slice of point i starts. */
  function Start(ids: seq<int>, i: nat): nat {
    |Grouped(ids, i)|
  }

  predicate IdsInRange(ids: seq<int>, m: nat) {
    forall j :: 0 <= j < |ids| ==> 0 <= ids[j] < m
  }

  ghost predicate Distinct(s: seq<int>) {
    forall k, l :: 0 <= k < l < |s| ==> s[k] != s[l]
  }

  /** Every index below |order| occurs, each exactly once. */
  ghost predicate IsPermutation(order: seq<int>) {
    && (forall k :: 0 <= k < |order| ==> 0 <= order[k] < |order|)
    && Distinct(order)
    && (forall j :: 0 <= j < |order| ==> j in order)
  }

  // ----- slices -----

  lemma {:induction false} OccurrencesMeaning(ids: seq<int>, i: int, n: nat)
    requires n <= |ids|
    ensures var r := Occurrences(ids, i, n);
            && |r| <= n
            && (forall k :: 0 <= k < |r| ==> 0 <= r[k] < n && ids[r[k]] == i)
            && (forall k, l :: 0 <= k < l < |r| ==> r[k] < r[l])
            && (forall j :: 0 <= j < n && ids[j] == i ==> j in r)
  {
    if n > 0 {
      OccurrencesMeaning(ids, i, n - 1);
    }
  }

  lemma {:induction false} OccurrencesPrefix(ids: seq<int>, i: int, n: nat, m: nat)
    requires n <= m <= |ids|
    ensures Occurrences(ids, i, n) <= Occurrences(ids, i, m)
  {
    if n < m {
      OccurrencesPrefix(ids, i, n, m - 1);
    }
  }

  lemma {:induction false} GroupedPrefix(ids: seq<int>, a: nat, b: nat)
    requires a <= b
    ensures Grouped(ids, a) <= Grouped(ids, b)
  {
    if a < b {
      GroupedPrefix(ids, a, b - 1);
    }
  }

  lemma {:induction false} StartNext(ids: seq<int>, i: nat)
    ensures Start(ids, i + 1) == Start(ids, i) + |Slice(ids, i)|
  {
  }

  lemma {:induction false} StartMonotone(ids: seq<int>, a: nat, b: nat)
    requires a <= b
    ensures Start(ids, a) <= Start(ids, b)
  {
    GroupedPrefix(ids, a, b);
  }

  /** Slice i occupies exactly [Start(i), Start(i+1)) of any longer grouping. */
  lemma {:induction false} SliceInGrouped(ids: seq<int>, i: nat, m: nat)
    requires i < m
    ensures Start(ids, i) + |Slice(ids, i)| == Start(ids, i + 1) <= Start(ids, m)
    ensures Grouped(ids, m)[Start(ids, i)..Start(ids, i + 1)] == Slice(ids, i)
  {
    GroupedPrefix(ids, i + 1, m);
    var g := Grouped(ids, i + 1);
    assert g[Start(ids, i)..Start(ids, i + 1)] == Slice(ids, i);
  }

  /** The slices tile the grouping: every position lies in exactly one of them. */
  lemma {:induction false} SliceOfPosition(ids: seq<int>, m: nat, p: nat) returns (i: nat)
    requires p < Start(ids, m)
    ensures i < m && Start(ids, i) <= p < Start(ids, i + 1) <= Start(ids, m)
    ensures forall i': nat :: i' < m && Start(ids, i') <= p < Start(ids, i' + 1) ==> i' == i
  {
    if p < Start(ids, m - 1) {
      i := SliceOfPosition(ids, m - 1, p);
    } else {
      i := m - 1;
      forall i': nat | i' < m && Start(ids, i') <= p < Start(ids, i' + 1) ensures i' == i {
        if i' < i {
          StartMonotone(ids, i' + 1, i);
        }
      }
    }
  }

  // ----- the grouping is a permutation -----

  lemma {:induction false} GroupedMembers(ids: seq<int>, m: nat)
    ensures forall j :: j in Grouped(ids, m) <==> 0 <= j < |ids| && 0 <= ids[j] < m
  {
    if m > 0 {
      GroupedMembers(ids, m - 1);
      OccurrencesMeaning(ids, m - 1, |ids|);
    }
  }

  lemma {:induction false} SliceElement(ids: seq<int>, i: int, a: nat)
    requires a < |Slice(ids, i)|
    ensures 0 <= Slice(ids, i)[a] < |ids| && ids[Slice(ids, i)[a]] == i
  {
    OccurrencesMeaning(ids, i, |ids|);
  }

  lemma {:induction false} SliceIncreases(ids: seq<int>, i: int, a: nat, b: nat)
    requires a < b < |Slice(ids, i)|
    ensures Slice(ids, i)[a] < Slice(ids, i)[b]
  {
    OccurrencesMeaning(ids, i, |ids|);
  }

  lemma {:induction false} OccurrencesDistinct(ids: seq<int>, i: int)
    ensures Distinct(Slice(ids, i))
  {
    OccurrencesMeaning(ids, i, |ids|);
  }

  lemma {:induction false} GroupedDistinct(ids: seq<int>, m: nat)
    ensures Distinct(Grouped(ids, m))
  {
    if m > 0 {
      GroupedDistinct(ids, m - 1);
      OccurrencesDistinct(ids, m - 1);
      var g, h, s := Grouped(ids, m), Grouped(ids, m - 1), Slice(ids, m - 1);
      forall x, y | x in h && y in s ensures x != y {
        GroupedMembers(ids, m - 1);
        OccurrencesMeaning(ids, m - 1, |ids|);
      }
      forall k, l | 0 <= k < l < |g| ensures g[k] != g[l] {
        if k < |h| <= l {
          assert g[k] in h && g[l] == s[l - |h|] && g[l] in s;
        } else if |h| <= k {
          assert g[k] == s[k - |h|] && g[l] == s[l - |h|];
        }
      }
    }
  }

  ghost function Below(n: nat): (r: set<int>)
    ensures |r| == n
    ensures forall j :: j in r <==> 0 <= j < n
  {
    if n == 0 then {} else Below(n - 1) + {n - 1}
  }

  lemma {:induction false} SetOfDistinct(s: seq<int>)
    requires Distinct(s)
    ensures |set x | x in s| == |s|
  {
    if s != [] {
      SetOfDistinct(s[1..]);
      assert (set x | x in s) == (set x | x in s[1..]) + {s[0]};
    } else {
      assert (set x | x in s) == {};
    }
  }

  /** With every id in range nothing is lost, invented or repeated. */
  lemma {:induction false} GroupedIsPermutation(ids: seq<int>, m: nat)
    requires IdsInRange(ids, m)
    ensures |Grouped(ids, m)| == |ids|
    ensures IsPermutation(Grouped(ids, m))
  {
    GroupedMembers(ids, m);
    GroupedDistinct(ids, m);
    var g := Grouped(ids, m);
    SetOfDistinct(g);
    assert (set x | x in g) == Below(|ids|);
    forall k | 0 <= k < |g| ensures 0 <= g[k] < |g| {
      assert g[k] in g;
    }
  }

  /** The element at a position of slice i is an observation of point i. */
  lemma {:induction false} PositionOfPoint(ids: seq<int>, m: nat, p: nat) returns (i: nat)
    requires p < |Grouped(ids, m)|
    ensures i < m && Start(ids, i) <= p < Start(ids, i + 1)
    ensures p - Start(ids, i) < |Slice(ids, i)|
    ensures Grouped(ids, m)[p] == Slice(ids, i)[p - Start(ids, i)]
    ensures 0 <= Grouped(ids, m)[p] < |ids| && ids[Grouped(ids, m)[p]] == i
  {
    i := SliceOfPosition(ids, m, p);
    SliceInGrouped(ids, i, m);
    var g, lo := Grouped(ids, m), Start(ids, i);
    assert g[lo..Start(ids, i + 1)][p - lo] == g[p];
    SliceElement(ids, i, p - lo);
  }

  /** Stability and grouping, read off two positions: point ids never decrease along the grouping,
      and among equal ids the original order is kept. */
  lemma {:induction false} GroupedIsStable(ids: seq<int>, m: nat, p: nat, q: nat)
    requires p < q < |Grouped(ids, m)|
    ensures var g := Grouped(ids, m);
            && 0 <= g[p] < |ids| && 0 <= g[q] < |ids|
            && (ids[g[p]] < ids[g[q]] || (ids[g[p]] == ids[g[q]] && g[p] < g[q]))
  {
    var i := PositionOfPoint(ids, m, p);
    var k := PositionOfPoint(ids, m, q);
    if k < i {
      StartMonotone(ids, k + 1, i);
    } else if k == i {
      SliceIncreases(ids, i, p - Start(ids, i), q - Start(ids, i));
    }
  }

  // ----- moving values through an order -----

  function Gather<T>(xs: seq<T>, order: seq<int>): (r: seq<T>)
    requires forall k :: 0 <= k < |order| ==> 0 <= order[k] < |xs|
  {
    seq(|order|, k requires 0 <= k < |order| => xs[order[k]])
  }

  /** Write slots[k] to position order[k], for the first n slots in turn. */
  function Scatter<T>(into: seq<T>, order: seq<int>, slots: seq<T>, n: nat): (r: seq<T>)
    requires n <= |order| && n <= |slots|
    requires forall k :: 0 <= k < |order| ==> 0 <= order[k] < |into|
    ensures |r| == |into|
  {
    if n == 0 then into else Scatter(into, order, slots, n - 1)[order[n - 1] := slots[n - 1]]
  }

  /** Each slot's value reaches the index it came from; indices the order does not name keep theirs. */
  lemma {:induction false} ScatterDelivers<T>(into: seq<T>, order: seq<int>, slots: seq<T>, n: nat)
    requires n <= |order| && n <= |slots|
    requires forall k :: 0 <= k < |order| ==> 0 <= order[k] < |into|
    requires Distinct(order)
    ensures forall k :: 0 <= k < n ==> Scatter(into, order, slots, n)[order[k]] == slots[k]
    ensures forall j :: 0 <= j < |into| && j !in order[..n] ==> Scatter(into, order, slots, n)[j] == into[j]
  {
    if n > 0 {
      ScatterDelivers(into, order, slots, n - 1);
      forall j | 0 <= j < |into| && j !in order[..n] ensures Scatter(into, order, slots, n)[j] == into[j] {
        assert order[n - 1] == order[..n][n - 1];
        assert j !in order[..n - 1] by {
          assert order[..n - 1] == order[..n][..n - 1];
        }
      }
    }
  }

  /** Round trip: scattering what was gathered restores the sequence, whatever it is written over. */
  lemma {:induction false} ScatterGather<T>(xs: seq<T>, into: seq<T>, order: seq<int>)
    requires IsPermutation(order) && |xs| == |into| == |order|
    ensures Scatter(into, order, Gather(xs, order), |order|) == xs
  {
    var slots := Gather(xs, order);
    ScatterDelivers(into, order, slots, |order|);
    var r := Scatter(into, order, slots, |order|);
    forall j | 0 <= j < |xs| ensures r[j] == xs[j] {
      assert j in order;
      var k :| 0 <= k < |order| && order[k] == j;
    }
  }
}
