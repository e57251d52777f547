/** Visiting stored IMU samples by time (libs/common/imu_measurement.cpp). The storage is a sequence in
    time order, oldest first; a visit is the list of samples the callback receives. */
module ImuRange {

  datatype Sample = Sample(time: int, payload: int)

  ghost predicate Sorted(s: seq<Sample>) {
    forall i, j :: 0 <= i < j < |s| ==> s[i].time <= s[j].time
  }

  /** The samples in the closed interval, in order. */
  function Within(s: seq<Sample>, from: int, to: int): seq<Sample> {
    if s == [] then []
    else
      var last := s[|s| - 1];
      Within(s[..|s| - 1], from, to) + if from <= last.time <= to then [last] else []
  }

  /** The samples at or after a time, in order. */
  function AtOrAfter(s: seq<Sample>, since: int): seq<Sample> {
    if s == [] then []
    else
      var last := s[|s| - 1];
      AtOrAfter(s[..|s| - 1], since) + if since <= last.time then [last] else []
  }

  /** What a range query visits: the samples in the interval, or else the first one after it. */
  function Visited(s: seq<Sample>, from: int, to: int): seq<Sample> {
    var inside, later := Within(s, from, to), AtOrAfter(s, from);
    if from > to then [] else if inside != [] || later == [] then inside else [later[0]]
  }

  // ----- binary search -----

  /** All samples before k are earlier than t, all others are not. */
  ghost predicate Splits(s: seq<Sample>, t: int, k: nat) {
    k <= |s| && (forall i :: 0 <= i < k ==> s[i].time < t) && forall i :: k <= i < |s| ==> s[i].time >= t
  }

  /** std::lower_bound: the first sample that is not earlier than t. */
  method LowerBound(s: seq<Sample>, t: int) returns (k: nat)
    requires Sorted(s)
    ensures Splits(s, t, k)
  {
    var count := |s|;
    k := 0;
    while count > 0
      invariant 0 <= count && k + count <= |s|
      invariant forall i :: 0 <= i < k ==> s[i].time < t
      invariant forall i :: k + count <= i < |s| ==> s[i].time >= t
    {
      var half := count / 2;
      if s[k + half].time < t {
        k, count := k + half + 1, count - half - 1;
      } else {
        count := half;
      }
    }
  }

  /** std::upper_bound: the first sample later than t. */
  method UpperBound(s: seq<Sample>, t: int) returns (k: nat)
    requires Sorted(s)
    ensures Splits(s, t + 1, k)
  {
    var count := |s|;
    k := 0;
    while count > 0
      invariant 0 <= count && k + count <= |s|
      invariant forall i :: 0 <= i < k ==> s[i].time <= t
      invariant forall i :: k + count <= i < |s| ==> s[i].time > t
    {
      var half := count / 2;
      if !(t < s[k + half].time) {
        k, count := k + half + 1, count - half - 1;
      } else {
        count := half;
      }
    }
  }

  lemma {:induction false} SliceIsWithin(s: seq<Sample>, from: int, to: int, lower: nat, upper: nat)
    requires Splits(s, from, lower) && Splits(s, to + 1, upper) && from <= to
    ensures lower <= upper && Within(s, from, to) == s[lower..upper]
  {
    if upper < |s| {
      assert s[upper].time > to;
    }
    if s != [] {
      var n := |s| - 1;
      if upper <= n {
        SliceIsWithin(s[..n], from, to, lower, upper);
        assert s[..n][lower..upper] == s[lower..upper];
      } else if lower <= n {
        SliceIsWithin(s[..n], from, to, lower, n);
        assert s[lower..upper] == s[..n][lower..n] + [s[n]];
      } else {
        SliceIsWithin(s[..n], from, to, n, n);
      }
    }
  }

  lemma {:induction false} TailIsAtOrAfter(s: seq<Sample>, since: int, lower: nat)
    requires Splits(s, since, lower)
    ensures AtOrAfter(s, since) == s[lower..]
  {
    if s != [] {
      var n := |s| - 1;
      if lower <= n {
        TailIsAtOrAfter(s[..n], since, lower);
        assert s[lower..] == s[..n][lower..] + [s[n]];
      } else {
        TailIsAtOrAfter(s[..n], since, n);
      }
    }
  }

  /** The samples of the interval are those at positions lower up to upper. */
  ghost predicate Inside(s: seq<Sample>, from: int, to: int, lower: nat, upper: nat) {
    && lower <= upper <= |s|
    && (forall i :: 0 <= i < lower ==> s[i].time < from)
    && (forall i :: lower <= i < upper ==> from <= s[i].time <= to)
    && forall i :: upper <= i < |s| ==> s[i].time > to
  }

  /** These are visited, or else the first one after the interval, if there is one. */
  ghost predicate VisitsInside(s: seq<Sample>, from: int, to: int, visited: seq<Sample>) {
    exists lower: nat, upper: nat ::
      && Inside(s, from, to, lower, upper)
      && visited == if lower < upper || lower == |s| then s[lower..upper] else [s[lower]]
  }

  // ----- the two visits -----

  method IterateSince(s: seq<Sample>, since: int) returns (visited: seq<Sample>)
    requires Sorted(s)
    ensures visited == AtOrAfter(s, since)
    ensures var n := |s| - |visited|;
            && n >= 0 && visited == s[n..]
            && (forall i :: 0 <= i < n ==> s[i].time < since) && forall i :: n <= i < |s| ==> s[i].time >= since
  {
    visited := [];
    var start := LowerBound(s, since);
    for k := start to |s|
      invariant visited == s[start..k]
    {
      visited := visited + [s[k]];
    }
    TailIsAtOrAfter(s, since, start);
  }

  method IterateFromTo(s: seq<Sample>, from: int, to: int) returns (visited: seq<Sample>)
    requires Sorted(s)
    ensures visited == Visited(s, from, to)
    ensures if from > to then visited == [] else VisitsInside(s, from, to, visited)
  {
    visited := [];
    if from > to {
      return;
    }
    var lower := LowerBound(s, from);
    var upper := UpperBound(s, to);
    SliceIsWithin(s, from, to, lower, upper);
    TailIsAtOrAfter(s, from, lower);
    assert Inside(s, from, to, lower, upper);
    if lower == upper && lower != |s| {
      visited := [s[lower]];
    }
    for k := lower to upper
      invariant visited == s[lower..k] + (if lower == upper && lower != |s| then [s[lower]] else [])
    {
      visited := visited + [s[k]];
    }
  }

  // ----- what is visited -----

  lemma {:induction false} WithinMembers(s: seq<Sample>, from: int, to: int, x: Sample)
    ensures x in Within(s, from, to) <==> x in s && from <= x.time <= to
  {
    if s != [] {
      WithinMembers(s[..|s| - 1], from, to, x);
      assert x in s <==> x in s[..|s| - 1] || x == s[|s| - 1];
    }
  }

  /** A query over an interval that holds a sample visits exactly the samples in it. */
  lemma {:induction false} VisitedMembers(s: seq<Sample>, from: int, to: int, inside: Sample, x: Sample)
    requires inside in s && from <= inside.time <= to
    ensures x in Visited(s, from, to) <==> x in s && from <= x.time <= to
  {
    WithinMembers(s, from, to, inside);
    WithinMembers(s, from, to, x);
  }

  /** In time order the first sample visited after an empty interval is the earliest one left. */
  lemma {:induction false} FirstIsEarliest(s: seq<Sample>, since: int, x: Sample)
    requires Sorted(s) && x in s && x.time >= since
    ensures AtOrAfter(s, since) != [] && since <= AtOrAfter(s, since)[0].time <= x.time
  {
    var n := |s| - 1;
    if x in s[..n] {
      FirstIsEarliest(s[..n], since, x);
    } else {
      NoneBefore(s[..n], since, x.time);
    }
  }

  lemma {:induction false} NoneBefore(s: seq<Sample>, since: int, bound: int)
    requires Sorted(s) && forall i :: 0 <= i < |s| ==> s[i].time <= bound
    ensures AtOrAfter(s, since) != [] ==> since <= AtOrAfter(s, since)[0].time <= bound
  {
    if s != [] {
      NoneBefore(s[..|s| - 1], since, bound);
    }
  }

  lemma {:induction false} SplitAt(s: seq<Sample>, t: int) returns (k: nat)
    requires Sorted(s)
    ensures Splits(s, t, k)
  {
    k := 0;
    while k < |s| && s[k].time < t
      invariant k <= |s| && forall i :: 0 <= i < k ==> s[i].time < t
    {
      k := k + 1;
    }
  }

  /** A visit, in terms of positions. */
  function VisitedAt(s: seq<Sample>, lower: nat, upper: nat): seq<Sample>
    requires lower <= upper <= |s|
  {
    if lower < upper || lower == |s| then s[lower..upper] else [s[lower]]
  }

  lemma {:induction false} VisitedIs(s: seq<Sample>, from: int, to: int, lower: nat, upper: nat)
    requires Splits(s, from, lower) && Splits(s, to + 1, upper) && from <= to
    ensures lower <= upper && Visited(s, from, to) == VisitedAt(s, lower, upper)
    ensures (Within(s, from, to) != []) == (lower < upper)
  {
    SliceIsWithin(s, from, to, lower, upper);
    TailIsAtOrAfter(s, from, lower);
  }

  lemma {:induction false} AdjacentAt(s: seq<Sample>, i: nat, j: nat, k: nat)
    requires i <= j <= k <= |s|
    ensures VisitedAt(s, i, j) + VisitedAt(s, j, k) == VisitedAt(s, i, k) <==> (i < j && j < k) || j == |s|
  {
    if (i < j && j < k) || j == |s| {
      assert s[i..j] + s[j..k] == s[i..k];
    } else {
      assert |VisitedAt(s, i, j)| + |VisitedAt(s, j, k)| > |VisitedAt(s, i, k)|;
    }
  }

  /** Two adjacent queries together visit what one query over both intervals would, exactly if both
      intervals hold a sample or nothing is stored after the first: otherwise the sample after an empty
      interval is visited too. */
  lemma {:induction false} AdjacentQueriesIff(s: seq<Sample>, a: int, b: int, c: int)
    requires Sorted(s) && a <= b < c
    ensures Visited(s, a, b) + Visited(s, b + 1, c) == Visited(s, a, c) <==>
            (Within(s, a, b) != [] && Within(s, b + 1, c) != []) || AtOrAfter(s, b + 1) == []
  {
    var i := SplitAt(s, a);
    var j := SplitAt(s, b + 1);
    var k := SplitAt(s, c + 1);
    VisitedIs(s, a, b, i, j);
    VisitedIs(s, b + 1, c, j, k);
    VisitedIs(s, a, c, i, k);
    TailIsAtOrAfter(s, b + 1, j);
    AdjacentAt(s, i, j, k);
  }
}
