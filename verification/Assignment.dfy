/** Lists of camera ids as the selection modes edit them: removing ids, keeping assigned ids, and
    adding depth cameras (libs/camera/frustum_intersection_graph.cpp). */
module Assignment {
  import opened CameraGraph

  type Lists = map<CameraId, seq<CameraId>>

  // ----- removal -----

  /** std::remove followed by erase: drops every occurrence. */
  function Remove(xs: seq<CameraId>, x: CameraId): seq<CameraId> {
    if xs == [] then []
    else if xs[0] == x then Remove(xs[1..], x)
    else [xs[0]] + Remove(xs[1..], x)
  }

  function Without(xs: seq<CameraId>, bad: set<CameraId>): seq<CameraId> {
    if xs == [] then []
    else if xs[0] in bad then Without(xs[1..], bad)
    else [xs[0]] + Without(xs[1..], bad)
  }

  function Among(xs: seq<CameraId>, bad: set<CameraId>): seq<CameraId> {
    if xs == [] then []
    else if xs[0] in bad then [xs[0]] + Among(xs[1..], bad)
    else Among(xs[1..], bad)
  }

  /** erase(find(...)): drops the first occurrence, which must exist. */
  function EraseFirst(xs: seq<CameraId>, x: CameraId): seq<CameraId>
    requires x in xs
  {
    if xs[0] == x then xs[1..] else [xs[0]] + EraseFirst(xs[1..], x)
  }

  /** Every erase in turn finds its element. */
  predicate CanEraseEach(xs: seq<CameraId>, out: seq<CameraId>)
    decreases |out|
  {
    out == [] || (out[0] in xs && CanEraseEach(EraseFirst(xs, out[0]), out[1..]))
  }

  function EraseEach(xs: seq<CameraId>, out: seq<CameraId>): seq<CameraId>
    requires CanEraseEach(xs, out)
    decreases |out|
  {
    if out == [] then xs else EraseEach(EraseFirst(xs, out[0]), out[1..])
  }

  lemma {:induction false} EraseBehindHead(x: CameraId, xs: seq<CameraId>, out: seq<CameraId>)
    requires x !in out && CanEraseEach(xs, out)
    ensures CanEraseEach([x] + xs, out) && EraseEach([x] + xs, out) == [x] + EraseEach(xs, out)
    decreases |out|
  {
    if out != [] {
      assert ([x] + xs)[1..] == xs;
      assert EraseFirst([x] + xs, out[0]) == [x] + EraseFirst(xs, out[0]);
      EraseBehindHead(x, EraseFirst(xs, out[0]), out[1..]);
    }
  }

  lemma {:induction false} AmongMembers(xs: seq<CameraId>, bad: set<CameraId>)
    ensures forall x: CameraId :: x in Among(xs, bad) <==> x in xs && x in bad
    ensures forall x: CameraId :: x in Without(xs, bad) <==> x in xs && x !in bad
  {
    if xs != [] {
      AmongMembers(xs[1..], bad);
      assert xs == [xs[0]] + xs[1..];
    }
  }

  /** Collecting the bad ids first and then erasing them one by one never fails to find one, and leaves
      the good ids in their order. */
  lemma {:induction false} EraseAmong(xs: seq<CameraId>, bad: set<CameraId>)
    ensures CanEraseEach(xs, Among(xs, bad)) && EraseEach(xs, Among(xs, bad)) == Without(xs, bad)
  {
    if xs != [] {
      EraseAmong(xs[1..], bad);
      assert xs == [xs[0]] + xs[1..];
      if xs[0] in bad {
        var out := Among(xs, bad);
        assert out[1..] == Among(xs[1..], bad);
        assert EraseFirst(xs, out[0]) == xs[1..];
      } else {
        AmongMembers(xs[1..], bad);
        EraseBehindHead(xs[0], xs[1..], Among(xs[1..], bad));
      }
    }
  }

  lemma {:induction false} WithoutKeepsDistinct(xs: seq<CameraId>, bad: set<CameraId>)
    requires Distinct(xs)
    ensures Distinct(Without(xs, bad))
  {
    if xs != [] {
      WithoutKeepsDistinct(xs[1..], bad);
      AmongMembers(xs[1..], bad);
      assert xs[0] !in xs[1..];
      var rest := Without(xs[1..], bad);
      assert forall k :: 0 <= k < |rest| ==> rest[k] in rest;
    }
  }

  // ----- performance mode: one primary per secondary -----

  /** Of the list of primary p, what remains once the secondaries in best went to their best primary. */
  function Keep(xs: seq<CameraId>, p: CameraId, best: map<CameraId, CameraId>): seq<CameraId> {
    if xs == [] then []
    else if xs[0] in best && best[xs[0]] != p then Keep(xs[1..], p, best)
    else [xs[0]] + Keep(xs[1..], p, best)
  }

  lemma {:induction false} KeepMembers(xs: seq<CameraId>, p: CameraId, best: map<CameraId, CameraId>)
    ensures forall x: CameraId :: x in Keep(xs, p, best) <==> x in xs && (x in best ==> best[x] == p)
  {
    if xs != [] {
      KeepMembers(xs[1..], p, best);
      assert xs == [xs[0]] + xs[1..];
    }
  }

  lemma {:induction false} KeepNothingAssigned(xs: seq<CameraId>, p: CameraId)
    ensures Keep(xs, p, map[]) == xs
  {
    if xs != [] {
      KeepNothingAssigned(xs[1..], p);
    }
  }

  /** Assigning one more secondary: its best primary keeps it, every other list drops it. */
  lemma {:induction false} KeepStep(xs: seq<CameraId>, p: CameraId, best: map<CameraId, CameraId>,
                                    s: CameraId, b: CameraId)
    requires s !in best
    ensures Keep(xs, p, best[s := b]) == if p == b then Keep(xs, p, best) else Remove(Keep(xs, p, best), s)
  {
    if xs != [] {
      KeepStep(xs[1..], p, best, s, b);
    }
  }

  lemma {:induction false} RemoveAbsent(xs: seq<CameraId>, x: CameraId)
    requires x !in xs
    ensures Remove(xs, x) == xs
  {
    if xs != [] {
      RemoveAbsent(xs[1..], x);
    }
  }

  ghost predicate Lists?(base: Lists, p: CameraId, s: CameraId) {
    p in base && s in base[p]
  }

  /** Each listed secondary goes to a primary that listed it, one with the largest overlap ratio seen
      from the secondary, and to no other. */
  ghost predicate IsAssignment(g: Graph, base: Lists, best: map<CameraId, CameraId>, now: Lists) {
    && (forall p: CameraId :: p in now <==> p in base)
    && (forall p: CameraId :: p in now ==> now[p] == Keep(base[p], p, best))
    && (forall s: CameraId :: s in best <==> exists p: CameraId :: Lists?(base, p, s))
    && (forall s: CameraId :: s in best ==> IsBest(g, base, s, best[s]))
  }

  ghost predicate IsBest(g: Graph, base: Lists, s: CameraId, b: CameraId) {
    && Lists?(base, b, s)
    && forall p: CameraId :: Lists?(base, p, s) ==>
         Adjacent(g, s, p) && Adjacent(g, s, b) && Ratio(g, s, p) <= Ratio(g, s, b)
  }

  /** No secondary is lost and none is shared: afterwards exactly one primary lists it, its best one. */
  lemma {:induction false} AssignedExactlyOnce(g: Graph, base: Lists, best: map<CameraId, CameraId>, now: Lists, q: CameraId, s: CameraId)
    requires IsAssignment(g, base, best, now) && Lists?(base, q, s)
    ensures s in best && IsBest(g, base, s, best[s])
    ensures forall p: CameraId :: Lists?(now, p, s) <==> p == best[s]
  {
    forall p: CameraId ensures Lists?(now, p, s) <==> p == best[s] {
      if p in base {
        KeepMembers(base[p], p, best);
      }
    }
  }

  // ----- depth cameras -----

  /** The depth ids that are not yet primary, in order, first occurrences only. */
  function NewDepthIds(primaries: seq<CameraId>, ids: seq<CameraId>): seq<CameraId>
    decreases |ids|
  {
    if ids == [] then []
    else if ids[0] in primaries then NewDepthIds(primaries, ids[1..])
    else [ids[0]] + NewDepthIds(primaries + [ids[0]], ids[1..])
  }

  lemma {:induction false} NewDepthMembers(primaries: seq<CameraId>, ids: seq<CameraId>)
    ensures forall d: CameraId :: d in NewDepthIds(primaries, ids) <==> d in ids && d !in primaries
    ensures Distinct(primaries) ==> Distinct(primaries + NewDepthIds(primaries, ids))
    decreases |ids|
  {
    if ids != [] {
      assert ids == [ids[0]] + ids[1..];
      if ids[0] in primaries {
        NewDepthMembers(primaries, ids[1..]);
      } else {
        NewDepthMembers(primaries + [ids[0]], ids[1..]);
        var rest := NewDepthIds(primaries + [ids[0]], ids[1..]);
        assert primaries + ([ids[0]] + rest) == (primaries + [ids[0]]) + rest;
      }
    }
  }
}
