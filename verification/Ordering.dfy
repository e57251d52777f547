/** Lists whose order does not matter, as the report script uses them (scripts/cuvslam_kpi_report.py).

    A comprehension is a Select: what a function gives for each element, in order. Permuting a list
    permutes every Select over it, so anything that depends only on the multiset of the result does not
    depend on the order of the list. Sorting is insertion sort, but nothing rests on that: a list has one
    ascending arrangement, so the median is a function of the multiset, too. Sorting commutes with
    increasing maps, and with negation when the result is reversed; least and greatest elements do the
    same. The regression check builds its own laws on these. */
module Ordering {

  // ----- selecting -----

  /** What f gives for each element of xs, in order: a comprehension, with or without a condition. */
  function Select<S, T>(xs: seq<S>, f: S -> seq<T>): seq<T> {
    if xs == [] then [] else Select(xs[..|xs| - 1], f) + f(xs[|xs| - 1])
  }

  lemma {:induction false} SelectSplit<S, T>(xs: seq<S>, k: nat, f: S -> seq<T>)
    requires k <= |xs|
    ensures Select(xs, f) == Select(xs[..k], f) + Select(xs[k..], f)
  {
    if k == |xs| {
      assert xs[..k] == xs && xs[k..] == [];
    } else {
      var n := |xs| - 1;
      SelectSplit(xs[..n], k, f);
      assert xs[..n][..k] == xs[..k] && xs[..n][k..] == xs[k..][..n - k] && xs[k..][n - k] == xs[n];
    }
  }

  lemma {:induction false} Removed<S>(xs: seq<S>, k: nat)
    requires k < |xs|
    ensures multiset(xs[..k] + xs[k + 1..]) == multiset(xs) - multiset{xs[k]}
  {
    assert xs == xs[..k] + [xs[k]] + xs[k + 1..];
  }

  lemma {:induction false} SelectRemoved<S, T>(xs: seq<S>, k: nat, f: S -> seq<T>)
    requires k < |xs|
    ensures multiset(Select(xs, f)) == multiset(Select(xs[..k] + xs[k + 1..], f)) + multiset(Select([xs[k]], f))
  {
    var rest := xs[..k] + xs[k + 1..];
    SelectSplit(xs, k, f);
    SelectSplit(xs[k..], 1, f);
    assert xs[k..][..1] == [xs[k]] && xs[k..][1..] == xs[k + 1..];
    SelectSplit(rest, k, f);
    assert rest[..k] == xs[..k] && rest[k..] == xs[k + 1..];
  }

  /** Permuting a list permutes what is selected from it. */
  lemma {:induction false} SelectPermuted<S, T>(xs: seq<S>, ys: seq<S>, f: S -> seq<T>)
    requires multiset(xs) == multiset(ys)
    ensures multiset(Select(xs, f)) == multiset(Select(ys, f))
    decreases |xs|
  {
    SameLength(xs, ys);
    if xs != [] {
      var n := |xs| - 1;
      assert xs[n] in multiset(ys);
      var k: nat :| k < |ys| && ys[k] == xs[n];
      Removed(xs, n);
      Removed(ys, k);
      assert xs[..n] + xs[n + 1..] == xs[..n];
      SelectPermuted(xs[..n], ys[..k] + ys[k + 1..], f);
      SelectRemoved(xs, n, f);
      SelectRemoved(ys, k, f);
    }
  }

  lemma {:induction false} SameLength<S>(xs: seq<S>, ys: seq<S>)
    requires multiset(xs) == multiset(ys)
    ensures |xs| == |ys|
  {
    assert |multiset(xs)| == |xs| && |multiset(ys)| == |ys|;
  }

  lemma {:induction false} SameMember<S>(xs: seq<S>, ys: seq<S>, x: S)
    requires multiset(xs) == multiset(ys)
    ensures x in xs <==> x in ys
  {
    assert x in xs <==> x in multiset(xs);
    assert x in ys <==> x in multiset(ys);
  }

  lemma {:induction false} Selected<S, T>(xs: seq<S>, f: S -> seq<T>, t: T)
    ensures t in Select(xs, f) <==> exists x :: x in xs && t in f(x)
  {
    if xs != [] {
      var n := |xs| - 1;
      Selected(xs[..n], f, t);
      assert forall x :: x in xs <==> x in xs[..n] || x == xs[n];
    }
  }

  // ----- sorting -----

  function Insert(xs: seq<real>, x: real): seq<real> {
    if xs == [] || xs[|xs| - 1] <= x then xs + [x] else Insert(xs[..|xs| - 1], x) + [xs[|xs| - 1]]
  }

  function Sort(xs: seq<real>): seq<real> {
    if xs == [] then [] else Insert(Sort(xs[..|xs| - 1]), xs[|xs| - 1])
  }

  ghost predicate Ascending(xs: seq<real>) {
    forall i, j :: 0 <= i < j < |xs| ==> xs[i] <= xs[j]
  }

  lemma {:induction false} InsertAdds(xs: seq<real>, x: real)
    ensures multiset(Insert(xs, x)) == multiset(xs) + multiset{x}
  {
    if xs != [] && xs[|xs| - 1] > x {
      InsertAdds(xs[..|xs| - 1], x);
      assert xs == xs[..|xs| - 1] + [xs[|xs| - 1]];
    }
  }

  lemma {:induction false} InsertBounded(xs: seq<real>, x: real, bound: real)
    requires x <= bound && forall i :: 0 <= i < |xs| ==> xs[i] <= bound
    ensures forall i :: 0 <= i < |Insert(xs, x)| ==> Insert(xs, x)[i] <= bound
  {
    if xs != [] && xs[|xs| - 1] > x {
      InsertBounded(xs[..|xs| - 1], x, bound);
    }
  }

  lemma {:induction false} InsertAscending(xs: seq<real>, x: real)
    requires Ascending(xs)
    ensures Ascending(Insert(xs, x))
  {
    if xs != [] && xs[|xs| - 1] > x {
      InsertAscending(xs[..|xs| - 1], x);
      InsertBounded(xs[..|xs| - 1], x, xs[|xs| - 1]);
    }
  }

  lemma {:induction false} SortSorts(xs: seq<real>)
    ensures Ascending(Sort(xs)) && multiset(Sort(xs)) == multiset(xs) && |Sort(xs)| == |xs|
  {
    if xs != [] {
      var n := |xs| - 1;
      SortSorts(xs[..n]);
      InsertAscending(Sort(xs[..n]), xs[n]);
      InsertAdds(Sort(xs[..n]), xs[n]);
      assert xs == xs[..n] + [xs[n]];
      SameLength(Sort(xs), xs);
    }
  }

  lemma {:induction false} SameLast(xs: seq<real>, ys: seq<real>)
    requires Ascending(xs) && Ascending(ys) && multiset(xs) == multiset(ys) && |xs| == |ys| > 0
    ensures xs[|xs| - 1] == ys[|xs| - 1]
  {
    var n := |xs| - 1;
    SameMember(xs, ys, xs[n]);
    SameMember(xs, ys, ys[n]);
  }

  /** There is one ascending arrangement. */
  lemma {:induction false} AscendingUnique(xs: seq<real>, ys: seq<real>)
    requires Ascending(xs) && Ascending(ys) && multiset(xs) == multiset(ys)
    ensures xs == ys
  {
    SameLength(xs, ys);
    if xs != [] {
      var n := |xs| - 1;
      SameLast(xs, ys);
      Removed(xs, n);
      Removed(ys, n);
      assert xs[..n] + xs[n + 1..] == xs[..n] && ys[..n] + ys[n + 1..] == ys[..n];
      AscendingUnique(xs[..n], ys[..n]);
    }
  }

  lemma {:induction false} SortPermuted(xs: seq<real>, ys: seq<real>)
    requires multiset(xs) == multiset(ys)
    ensures Sort(xs) == Sort(ys)
  {
    SortSorts(xs);
    SortSorts(ys);
    AscendingUnique(Sort(xs), Sort(ys));
  }

  // ----- the median -----

  function Middle(s: seq<real>): real
    requires s != []
  {
    var n := |s|;
    if n % 2 == 1 then s[n / 2] else (s[n / 2 - 1] + s[n / 2]) / 2.0
  }

  function Median(xs: seq<real>): real
    requires xs != []
  {
    SortSorts(xs);
    Middle(Sort(xs))
  }

  function Map<S, T>(xs: seq<S>, f: S -> T): (r: seq<T>)
    ensures |r| == |xs| && forall i :: 0 <= i < |xs| ==> r[i] == f(xs[i])
  {
    if xs == [] then [] else Map(xs[..|xs| - 1], f) + [f(xs[|xs| - 1])]
  }

  ghost predicate Rising(f: real -> real) {
    forall x: real, y: real :: x <= y <==> f(x) <= f(y)
  }

  lemma {:induction false} InsertMapped(xs: seq<real>, x: real, f: real -> real)
    requires Rising(f)
    ensures Insert(Map(xs, f), f(x)) == Map(Insert(xs, x), f)
  {
    if xs != [] {
      var n := |xs| - 1;
      assert Map(xs, f)[..n] == Map(xs[..n], f);
      if xs[n] > x {
        InsertMapped(xs[..n], x, f);
        assert Map(Insert(xs[..n], x) + [xs[n]], f) == Map(Insert(xs[..n], x), f) + [f(xs[n])];
      } else {
        assert Map(xs + [x], f) == Map(xs, f) + [f(x)];
      }
    }
  }

  lemma {:induction false} SortMapped(xs: seq<real>, f: real -> real)
    requires Rising(f)
    ensures Sort(Map(xs, f)) == Map(Sort(xs), f)
  {
    if xs != [] {
      var n := |xs| - 1;
      assert Map(xs, f)[..n] == Map(xs[..n], f);
      SortMapped(xs[..n], f);
      InsertMapped(Sort(xs[..n]), xs[n], f);
    }
  }

  function Negated(xs: seq<real>): (r: seq<real>)
    ensures |r| == |xs| && forall i :: 0 <= i < |xs| ==> r[i] == -xs[i]
  {
    Map(xs, (x: real) => -x)
  }

  function Reversed(xs: seq<real>): (r: seq<real>)
    ensures |r| == |xs| && forall i :: 0 <= i < |xs| ==> r[i] == xs[|xs| - 1 - i]
  {
    if xs == [] then [] else [xs[|xs| - 1]] + Reversed(xs[..|xs| - 1])
  }

  lemma {:induction false} ReversedSame(xs: seq<real>)
    ensures multiset(Reversed(xs)) == multiset(xs)
  {
    if xs != [] {
      ReversedSame(xs[..|xs| - 1]);
      assert xs == xs[..|xs| - 1] + [xs[|xs| - 1]];
    }
  }

  lemma {:induction false} NegatedSame(xs: seq<real>, ys: seq<real>)
    requires multiset(xs) == multiset(ys)
    ensures multiset(Negated(xs)) == multiset(Negated(ys))
  {
    var f := (x: real) => [-x];
    NegatedSelects(xs, f);
    NegatedSelects(ys, f);
    SelectPermuted(xs, ys, f);
  }

  lemma {:induction false} NegatedSelects(xs: seq<real>, f: real -> seq<real>)
    requires forall x: real :: f(x) == [-x]
    ensures Select(xs, f) == Negated(xs)
  {
    if xs != [] {
      NegatedSelects(xs[..|xs| - 1], f);
    }
  }

  lemma {:induction false} SortNegated(xs: seq<real>)
    ensures Sort(Negated(xs)) == Reversed(Negated(Sort(xs)))
  {
    SortSorts(xs);
    SortSorts(Negated(xs));
    NegatedSame(Sort(xs), xs);
    ReversedSame(Negated(Sort(xs)));
    AscendingUnique(Sort(Negated(xs)), Reversed(Negated(Sort(xs))));
  }

  lemma {:induction false} MedianPermuted(xs: seq<real>, ys: seq<real>)
    requires xs != [] && multiset(xs) == multiset(ys)
    ensures ys != [] && Median(xs) == Median(ys)
  {
    SameLength(xs, ys);
    SortPermuted(xs, ys);
  }

  lemma {:induction false} MiddleOfReversed(s: seq<real>)
    requires s != []
    ensures Middle(Reversed(Negated(s))) == -Middle(s)
  {
  }

  lemma {:induction false} MedianNegated(xs: seq<real>)
    requires xs != []
    ensures Median(Negated(xs)) == -Median(xs)
  {
    SortSorts(xs);
    SortNegated(xs);
    MiddleOfReversed(Sort(xs));
  }

  // ----- least and greatest -----

  function Least(xs: seq<real>): (r: real)
    requires xs != []
    ensures r in xs && forall x :: x in xs ==> r <= x
  {
    if |xs| == 1 then xs[0]
    else
      var n := |xs| - 1;
      var r := Least(xs[..n]);
      assert forall x :: x in xs <==> x in xs[..n] || x == xs[n];
      if xs[n] < r then xs[n] else r
  }

  function Greatest(xs: seq<real>): (r: real)
    requires xs != []
    ensures r in xs && forall x :: x in xs ==> x <= r
  {
    if |xs| == 1 then xs[0]
    else
      var n := |xs| - 1;
      var r := Greatest(xs[..n]);
      assert forall x :: x in xs <==> x in xs[..n] || x == xs[n];
      if xs[n] > r then xs[n] else r
  }

  lemma {:induction false} ExtremesPermuted(xs: seq<real>, ys: seq<real>)
    requires xs != [] && multiset(xs) == multiset(ys)
    ensures ys != [] && Least(xs) == Least(ys) && Greatest(xs) == Greatest(ys)
  {
    SameLength(xs, ys);
    SameMember(xs, ys, Least(xs));
    SameMember(xs, ys, Least(ys));
    SameMember(xs, ys, Greatest(xs));
    SameMember(xs, ys, Greatest(ys));
  }

  lemma {:induction false} ExtremesMapped(xs: seq<real>, f: real -> real)
    requires xs != [] && Rising(f)
    ensures Least(Map(xs, f)) == f(Least(xs)) && Greatest(Map(xs, f)) == f(Greatest(xs))
  {
    var low := MappedMember(xs, f, Least(Map(xs, f)));
    var high := MappedMember(xs, f, Greatest(Map(xs, f)));
    MemberMapped(xs, f, Least(xs));
    MemberMapped(xs, f, Greatest(xs));
  }

  lemma {:induction false} MappedMember(xs: seq<real>, f: real -> real, y: real)
    returns (x: real)
    requires y in Map(xs, f)
    ensures x in xs && y == f(x)
  {
    var i :| 0 <= i < |xs| && Map(xs, f)[i] == y;
    x := xs[i];
  }

  lemma {:induction false} MemberMapped(xs: seq<real>, f: real -> real, x: real)
    requires x in xs
    ensures f(x) in Map(xs, f)
  {
    var i :| 0 <= i < |xs| && xs[i] == x;
    assert Map(xs, f)[i] == f(x);
  }

  lemma {:induction false} ExtremesNegated(xs: seq<real>)
    requires xs != []
    ensures Least(Negated(xs)) == -Greatest(xs) && Greatest(Negated(xs)) == -Least(xs)
  {
    var f := (x: real) => -x;
    var high := MappedMember(xs, f, Least(Negated(xs)));
    var low := MappedMember(xs, f, Greatest(Negated(xs)));
    MemberMapped(xs, f, Least(xs));
    MemberMapped(xs, f, Greatest(xs));
  }
}
