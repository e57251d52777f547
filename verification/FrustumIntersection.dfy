/** FrustumIntersectionGraph (libs/camera/frustum_intersection_graph.cpp): the four selection modes and
    the constructor that post-processes their result. Hash maps are iterated in an order the code does
    not fix; every such loop picks its next key arbitrarily, so what is proved holds for every order. */
module FrustumIntersection {
  import opened CameraGraph
  import opened Assignment

  datatype Mode = Performance | Precision | Moderate | Manual

  datatype Settings = Settings(
    mode: Mode,
    depthIds: seq<CameraId>,
    allowStereoTrackForDepth: bool,
    manualSetup: seq<seq<CameraId>>)

  datatype Status = Ok | WrongSetupSize | WrongSecondaryIndex

  // ----- what each mode computes -----

  function Upto(n: nat): (r: seq<CameraId>)
    ensures forall c: CameraId :: c in r <==> c < n
    ensures Distinct(r)
  {
    if n == 0 then [] else
    var q := Upto(n - 1);
    assert forall k :: 0 <= k < |q| ==> q[k] in q;
    q + [n - 1]
  }

  function AllNeighbours(g: Graph): Lists {
    map c: CameraId | 0 <= c < |g| :: Neighbours(g, c)
  }

  predicate ManualRowOk(setup: seq<seq<CameraId>>, c: CameraId)
    requires c < |setup|
  {
    forall k :: 0 <= k < |setup[c]| ==> setup[c][k] != c && setup[c][k] < |setup|
  }

  predicate ManualAccepted(g: Graph, setup: seq<seq<CameraId>>) {
    |setup| == |g| && forall c: CameraId :: c < |setup| ==> ManualRowOk(setup, c)
  }

  function ManualPrimaries(setup: seq<seq<CameraId>>, n: nat): seq<CameraId>
    requires n <= |setup|
  {
    if n == 0 then []
    else ManualPrimaries(setup, n - 1) + if setup[n - 1] == [] then [] else [n - 1]
  }

  function ManualLists(setup: seq<seq<CameraId>>, n: nat): Lists
    requires n <= |setup|
  {
    map c: CameraId | 0 <= c < n && setup[c] != [] :: setup[c]
  }

  ghost predicate PerformanceResult(g: Graph, primaries: seq<CameraId>, lists: Lists) {
    exists base: Lists, best: map<CameraId, CameraId> ::
      IsModerate(g, primaries, base) && IsAssignment(g, base, best, lists)
  }

  ghost predicate ModeResult(g: Graph, settings: Settings, primaries: seq<CameraId>, lists: Lists) {
    match settings.mode
    case Precision => primaries == Upto(|g|) && lists == AllNeighbours(g)
    case Moderate => IsModerate(g, primaries, lists)
    case Performance => PerformanceResult(g, primaries, lists)
    case Manual =>
      && ManualAccepted(g, settings.manualSetup)
      && primaries == ManualPrimaries(settings.manualSetup, |settings.manualSetup|)
      && lists == ManualLists(settings.manualSetup, |settings.manualSetup|)
  }

  ghost predicate SomeSecondary(lists: Lists) {
    exists p: CameraId :: p in lists && lists[p] != []
  }

  /** Does the mode have any pair to offer? For the automatic modes: has the graph an edge? */
  ghost predicate HasPair(g: Graph, settings: Settings) {
    if settings.mode == Manual then exists c: CameraId :: c < |settings.manualSetup| && settings.manualSetup[c] != []
    else HasEdge(g)
  }

  ghost predicate ModeFacts(g: Graph, settings: Settings, primaries: seq<CameraId>, lists: Lists) {
    && Distinct(primaries)
    && (forall p: CameraId :: p in lists <==> p in primaries)
    && (SomeSecondary(lists) <==> HasPair(g, settings))
  }

  lemma {:induction false} ManualMembers(setup: seq<seq<CameraId>>, n: nat)
    requires n <= |setup|
    ensures var r := ManualPrimaries(setup, n);
            && (forall c: CameraId :: c in r <==> c < n && setup[c] != [])
            && Distinct(r)
  {
    if n > 0 {
      ManualMembers(setup, n - 1);
      var q := ManualPrimaries(setup, n - 1);
      assert forall k :: 0 <= k < |q| ==> q[k] in q;
    }
  }

  lemma {:induction false} EdgeIffModerateSecondary(g: Graph, primaries: seq<CameraId>, lists: Lists)
    requires IsModerate(g, primaries, lists)
    ensures SomeSecondary(lists) <==> HasEdge(g)
  {
    if HasEdge(g) {
      var u: CameraId, v: CameraId :| Adjacent(g, u, v);
      if u in primaries {
        assert lists[u] != [];
      } else {
        var p := ModerateCoversFromBelow(g, primaries, lists, u);
        assert lists[p] != [];
      }
    }
    if SomeSecondary(lists) {
      var p: CameraId :| p in lists && lists[p] != [];
      assert Adjacent(g, p, lists[p][0]);
    }
  }

  lemma {:induction false} AssignmentKeepsSome(g: Graph, base: Lists, best: map<CameraId, CameraId>, now: Lists)
    requires IsAssignment(g, base, best, now)
    ensures SomeSecondary(base) <==> SomeSecondary(now)
  {
    if SomeSecondary(base) {
      var q: CameraId :| q in base && base[q] != [];
      var s := base[q][0];
      assert Lists?(base, q, s);
      AssignedExactlyOnce(g, base, best, now, q, s);
      assert Lists?(now, best[s], s);
    }
    if SomeSecondary(now) {
      var p: CameraId :| p in now && now[p] != [];
      KeepMembers(base[p], p, best);
      assert now[p][0] in base[p];
    }
  }

  /** Whatever the mode, the map has one entry per distinct primary, and some list is non-empty exactly
      when the mode had a pair to offer. */
  lemma {:induction false} EveryModeHasFacts(g: Graph, settings: Settings, primaries: seq<CameraId>, lists: Lists)
    requires ModeResult(g, settings, primaries, lists)
    ensures ModeFacts(g, settings, primaries, lists)
  {
    match settings.mode
    case Precision =>
      if HasEdge(g) {
        var u: CameraId, v: CameraId :| Adjacent(g, u, v);
        assert lists[u] != [];
      }
      if SomeSecondary(lists) {
        var p: CameraId :| p in lists && lists[p] != [];
        assert Adjacent(g, p, lists[p][0]);
      }
    case Moderate =>
      EdgeIffModerateSecondary(g, primaries, lists);
    case Performance =>
      var base: Lists, best: map<CameraId, CameraId> :|
        IsModerate(g, primaries, base) && IsAssignment(g, base, best, lists);
      EdgeIffModerateSecondary(g, primaries, base);
      AssignmentKeepsSome(g, base, best, lists);
    case Manual =>
      ManualMembers(settings.manualSetup, |settings.manualSetup|);
      if HasPair(g, settings) {
        var c: CameraId :| c < |settings.manualSetup| && settings.manualSetup[c] != [];
        assert c in lists;
      }
  }

  // ----- what the constructor makes of it -----

  function Stripped(lists: Lists, bad: set<CameraId>): Lists {
    map p | p in lists :: Without(lists[p], bad)
  }

  function Idle(primaries: seq<CameraId>, lists: Lists): set<CameraId> {
    set p | p in primaries && (p !in lists || lists[p] == [])
  }

  function SetOf(ids: seq<CameraId>): set<CameraId> {
    set d | d in ids
  }

  function StripSet(settings: Settings): set<CameraId> {
    if settings.allowStereoTrackForDepth then {} else SetOf(settings.depthIds)
  }

  function Survivors(primaries: seq<CameraId>, lists: Lists): seq<CameraId> {
    Without(primaries, Idle(primaries, lists))
  }

  function WithDepth(lists: Lists, added: seq<CameraId>): Lists {
    lists + map d | d in added :: []
  }

  /** The finished primaries and lists as a function of the mode's result. */
  ghost predicate Finished(settings: Settings, primaries0: seq<CameraId>, lists0: Lists,
                           primaries: seq<CameraId>, lists: Lists) {
    var stripped := Stripped(lists0, StripSet(settings));
    var survivors := Survivors(primaries0, stripped);
    var added := NewDepthIds(survivors, settings.depthIds);
    primaries == survivors + added && lists == WithDepth(stripped, added)
  }

  /** The class invariant every mode ends with. */
  ghost predicate Established(settings: Settings, primaries: seq<CameraId>, lists: Lists) {
    && Distinct(primaries)
    && (forall p :: p in primaries ==> p in lists)
    && (forall d :: d in settings.depthIds ==> d in primaries)
    && (forall p :: p in primaries && lists[p] == [] ==> p in settings.depthIds)
    && (!settings.allowStereoTrackForDepth ==>
          forall p, k: nat :: p in lists && k < |lists[p]| ==> lists[p][k] !in settings.depthIds)
  }

  lemma {:induction false} FinishedIsEstablished(g: Graph, settings: Settings, primaries0: seq<CameraId>, lists0: Lists,
                              primaries: seq<CameraId>, lists: Lists)
    requires ModeFacts(g, settings, primaries0, lists0)
    requires Finished(settings, primaries0, lists0, primaries, lists)
    ensures Established(settings, primaries, lists)
  {
    var stripped := Stripped(lists0, StripSet(settings));
    var survivors := Survivors(primaries0, stripped);
    var added := NewDepthIds(survivors, settings.depthIds);
    WithoutKeepsDistinct(primaries0, Idle(primaries0, stripped));
    AmongMembers(primaries0, Idle(primaries0, stripped));
    NewDepthMembers(survivors, settings.depthIds);
    if !settings.allowStereoTrackForDepth {
      forall p, k: nat | p in lists && k < |lists[p]| ensures lists[p][k] !in settings.depthIds {
        AmongMembers(lists0[p], StripSet(settings));
        assert lists[p][k] in Without(lists0[p], StripSet(settings));
      }
    }
  }

  /** The graph has a primary camera, so is_valid holds, exactly when a depth camera was configured or
      the mode had a pair to offer. Depth stripping cannot break this: it needs a depth camera. */
  lemma {:induction false} ValidIff(g: Graph, settings: Settings, primaries0: seq<CameraId>, lists0: Lists,
                 primaries: seq<CameraId>, lists: Lists)
    requires ModeFacts(g, settings, primaries0, lists0)
    requires Finished(settings, primaries0, lists0, primaries, lists)
    ensures primaries != [] <==> settings.depthIds != [] || HasPair(g, settings)
  {
    var stripped := Stripped(lists0, StripSet(settings));
    var survivors := Survivors(primaries0, stripped);
    AmongMembers(primaries0, Idle(primaries0, stripped));
    NewDepthMembers(survivors, settings.depthIds);
    if settings.depthIds != [] {
      assert settings.depthIds[0] in primaries;
    } else {
      assert StripSet(settings) == {};
      assert stripped == lists0 by {
        forall p | p in lists0 ensures Without(lists0[p], {}) == lists0[p] {
          WithoutNothing(lists0[p]);
        }
      }
      assert NewDepthIds(survivors, settings.depthIds) == [];
      if SomeSecondary(lists0) {
        var p :| p in lists0 && lists0[p] != [];
        assert p in survivors;
      }
      if primaries != [] {
        assert survivors[0] in survivors;
        assert lists0[survivors[0]] != [];
      }
    }
  }

  // ----- which cameras and pairs come through, told from what the constructor is given -----

  ghost predicate ListsOutside(lists: Lists, bad: set<CameraId>, c: CameraId) {
    c in lists && exists v: CameraId :: v in lists[c] && v !in bad
  }

  /** Before post-processing: a camera ends with secondaries exactly if the mode gave it one that is not
      stripped, and ends primary exactly if that holds or it is a depth camera. */
  lemma {:induction false} FinishedMember(g: Graph, settings: Settings, primaries0: seq<CameraId>, lists0: Lists,
                       primaries: seq<CameraId>, lists: Lists, c: CameraId)
    requires ModeFacts(g, settings, primaries0, lists0)
    requires Finished(settings, primaries0, lists0, primaries, lists)
    ensures c in lists && lists[c] != [] <==> ListsOutside(lists0, StripSet(settings), c)
    ensures c in primaries <==> c in settings.depthIds || ListsOutside(lists0, StripSet(settings), c)
  {
    var stripped := Stripped(lists0, StripSet(settings));
    var survivors := Survivors(primaries0, stripped);
    AmongMembers(primaries0, Idle(primaries0, stripped));
    NewDepthMembers(survivors, settings.depthIds);
    if c in lists0 {
      AmongMembers(lists0[c], StripSet(settings));
      assert ListsOutside(lists0, StripSet(settings), c) <==> stripped[c] != [] by {
        if stripped[c] != [] {
          assert stripped[c][0] in stripped[c];
        }
      }
    }
  }

  ghost predicate PartnerOutside(g: Graph, bad: set<CameraId>, c: CameraId) {
    exists v: CameraId :: Adjacent(g, c, v) && v !in bad
  }

  ghost predicate SetupOutside(setup: seq<seq<CameraId>>, bad: set<CameraId>, c: CameraId) {
    c < |setup| && exists v: CameraId :: v in setup[c] && v !in bad
  }

  /** Does camera c keep a secondary? Answered by graph and settings alone, except that performance mode
      is free to choose between primaries of equal ratio. */
  ghost predicate KeepsSecondary(g: Graph, settings: Settings, c: CameraId)
    requires settings.mode != Performance
  {
    match settings.mode
    case Precision => PartnerOutside(g, StripSet(settings), c)
    case Moderate => c < |g| && Chosen(g, c) && PartnerOutside(g, StripSet(settings), c)
    case Manual => SetupOutside(settings.manualSetup, StripSet(settings), c)
  }

  lemma {:induction false} KeepsSecondaryIff(g: Graph, settings: Settings, primaries0: seq<CameraId>, lists0: Lists,
                          c: CameraId)
    requires ModeResult(g, settings, primaries0, lists0) && settings.mode != Performance
    ensures ListsOutside(lists0, StripSet(settings), c) <==> KeepsSecondary(g, settings, c)
  {
    if settings.mode == Moderate && c < |g| {
      PrimaryIffChosen(g, primaries0, lists0, c);
    }
  }

  /** What the ratio lookup of performance mode relies on: a camera that a chosen one lists has the edge
      back. Every symmetric graph is like that. */
  ghost predicate EdgesBack(g: Graph) {
    forall u: CameraId, v: CameraId :: Adjacent(g, u, v) && Chosen(g, u) ==> Adjacent(g, v, u)
  }

  /** And it is no more than the lookup needs: every search for a listing primary among the secondary's edges
      succeeds exactly under it. */
  lemma {:induction false} LookupSucceedsIff(g: Graph, primaries: seq<CameraId>, base: Lists)
    requires IsModerate(g, primaries, base)
    ensures EdgesBack(g) <==> forall p: CameraId, s: CameraId :: Lists?(base, p, s) ==> Adjacent(g, s, p)
  {
    forall p: CameraId, s: CameraId ensures Lists?(base, p, s) <==> Adjacent(g, p, s) && Chosen(g, p) {
      if p < |g| {
        PrimaryIffChosen(g, primaries, base, p);
      }
    }
  }

  /** An edge recorded at one end only: camera 0 lists camera 1, whose own edge list is empty. */
  lemma {:induction false} OneSidedLookupFails()
    ensures var g, base: Lists := [NodeWith([ConnectedCam(1, 0.6)]), NodeWith([])], map[1 := [], 0 := [1]];
            IsModerate(g, [1, 0], base) && Lists?(base, 0, 1) && !Adjacent(g, 1, 0)
  {
    var g := [NodeWith([ConnectedCam(1, 0.6)]), NodeWith([])];
    assert Neighbours(g, 0) == [1] && Neighbours(g, 1) == [];
    assert Precedes(g, 1, 0) && !Adjacent(g, 1, 0);
    assert !Covered(g, [1, 0], 0) && !Covered(g, [1, 0], 1);
  }

  /** Chosen cameras next to v are its candidates in performance mode; c has the largest ratio of them. */
  ghost predicate CandidateFor(g: Graph, c: CameraId, v: CameraId) {
    c < |g| && Chosen(g, c) && Adjacent(g, c, v) && Adjacent(g, v, c)
  }

  ghost predicate AmongBest(g: Graph, c: CameraId, v: CameraId) {
    CandidateFor(g, c, v) && forall p: CameraId :: CandidateFor(g, p, v) ==> Ratio(g, v, p) <= Ratio(g, v, c)
  }

  ghost predicate SoleBest(g: Graph, c: CameraId, v: CameraId) {
    CandidateFor(g, c, v) && forall p: CameraId :: CandidateFor(g, p, v) && p != c ==> Ratio(g, v, p) < Ratio(g, v, c)
  }

  ghost predicate SurelyKeeps(g: Graph, settings: Settings, c: CameraId) {
    exists v: CameraId :: v !in StripSet(settings) && SoleBest(g, c, v)
  }

  ghost predicate MayKeep(g: Graph, settings: Settings, c: CameraId) {
    exists v: CameraId :: v !in StripSet(settings) && AmongBest(g, c, v)
  }

  /** Performance mode, one run: being the sole best primary of a camera outside the stripped ones suffices,
      and being among the best of one is necessary. */
  lemma {:induction false} PerformanceKeepsSecondary(g: Graph, settings: Settings, primaries0: seq<CameraId>, lists0: Lists,
                                  c: CameraId)
    requires EdgesBack(g) && ModeResult(g, settings, primaries0, lists0) && settings.mode == Performance
    ensures SurelyKeeps(g, settings, c) ==> ListsOutside(lists0, StripSet(settings), c)
    ensures ListsOutside(lists0, StripSet(settings), c) ==> MayKeep(g, settings, c)
  {
    var base: Lists, best: map<CameraId, CameraId> :|
      IsModerate(g, primaries0, base) && IsAssignment(g, base, best, lists0);
    if SurelyKeeps(g, settings, c) {
      var v: CameraId :| v !in StripSet(settings) && SoleBest(g, c, v);
      SoleBestLists(g, primaries0, base, best, lists0, c, v);
    }
    if ListsOutside(lists0, StripSet(settings), c) {
      var v: CameraId :| v in lists0[c] && v !in StripSet(settings);
      ListedIsAmongBest(g, primaries0, base, best, lists0, c, v);
    }
  }

  lemma {:induction false} SoleBestLists(g: Graph, primaries: seq<CameraId>, base: Lists, best: map<CameraId, CameraId>,
                      now: Lists, c: CameraId, v: CameraId)
    requires EdgesBack(g) && IsModerate(g, primaries, base) && IsAssignment(g, base, best, now)
    requires SoleBest(g, c, v)
    ensures Lists?(now, c, v)
  {
    ListsCandidates(g, primaries, base, c, v);
    AssignedExactlyOnce(g, base, best, now, c, v);
    ListsCandidates(g, primaries, base, best[v], v);
  }

  lemma {:induction false} ListedIsAmongBest(g: Graph, primaries: seq<CameraId>, base: Lists, best: map<CameraId, CameraId>,
                          now: Lists, c: CameraId, v: CameraId)
    requires EdgesBack(g) && IsModerate(g, primaries, base) && IsAssignment(g, base, best, now)
    requires Lists?(now, c, v)
    ensures AmongBest(g, c, v)
  {
    KeepMembers(base[c], c, best);
    AssignedExactlyOnce(g, base, best, now, c, v);
    forall p: CameraId ensures CandidateFor(g, p, v) <==> Lists?(base, p, v) {
      ListsCandidates(g, primaries, base, p, v);
    }
  }

  lemma {:induction false} ListsCandidates(g: Graph, primaries: seq<CameraId>, base: Lists, p: CameraId, v: CameraId)
    requires EdgesBack(g) && IsModerate(g, primaries, base)
    ensures Lists?(base, p, v) <==> CandidateFor(g, p, v)
  {
    if p < |g| {
      PrimaryIffChosen(g, primaries, base, p);
      assert Adjacent(g, p, v) && Chosen(g, p) ==> Adjacent(g, v, p);
    }
  }

  // ----- performance mode over every order of the hash maps -----

  lemma {:induction false} AscendingBehind(g: Graph, c: CameraId, rest: seq<CameraId>)
    requires c < |g| && InGraph(g, rest) && Ascending(g, rest)
    requires forall k :: 0 <= k < |rest| ==> Precedes(g, c, rest[k])
    ensures InGraph(g, [c] + rest) && Ascending(g, [c] + rest)
  {
  }

  lemma {:induction false} WithoutKeepsAscending(g: Graph, xs: seq<CameraId>, bad: set<CameraId>)
    requires InGraph(g, xs) && Ascending(g, xs)
    ensures InGraph(g, Without(xs, bad)) && Ascending(g, Without(xs, bad))
  {
    if xs != [] {
      var rest := Without(xs[1..], bad);
      WithoutKeepsAscending(g, xs[1..], bad);
      AmongMembers(xs[1..], bad);
      forall k | 0 <= k < |rest| ensures Precedes(g, xs[0], rest[k]) {
        assert rest[k] in rest;
        var l :| 0 < l < |xs| && xs[l] == rest[k];
      }
      AscendingBehind(g, xs[0], rest);
    }
  }

  function NotChosen(g: Graph): set<CameraId> {
    set c: CameraId | 0 <= c < |g| && !Chosen(g, c)
  }

  function GreedyPrimaries(g: Graph): seq<CameraId> {
    Without(SortedCameras(g, |g|), NotChosen(g))
  }

  lemma {:induction false} GreedyMembers(g: Graph)
    ensures forall c: CameraId :: c in GreedyPrimaries(g) <==> c < |g| && Chosen(g, c)
    ensures InGraph(g, GreedyPrimaries(g)) && Ascending(g, GreedyPrimaries(g))
  {
    AmongMembers(SortedCameras(g, |g|), NotChosen(g));
    WithoutKeepsAscending(g, SortedCameras(g, |g|), NotChosen(g));
  }

  ghost function GreedyLists(g: Graph): Lists {
    map c: CameraId | 0 <= c < |g| && Chosen(g, c) :: Neighbours(g, c)
  }

  lemma {:induction false} GreedyIsModerate(g: Graph)
    ensures IsModerate(g, GreedyPrimaries(g), GreedyLists(g))
  {
    var primaries := GreedyPrimaries(g);
    GreedyMembers(g);
    forall c: CameraId | c < |g| ensures Covered(g, primaries, c) <==> !Chosen(g, c) {
    }
  }

  /** Of a camera's candidates below n, one has the largest ratio. */
  lemma {:induction false} BestBelow(g: Graph, v: CameraId, n: nat) returns (b: CameraId)
    requires exists p: CameraId :: p < n && CandidateFor(g, p, v)
    ensures CandidateFor(g, b, v)
    ensures forall p: CameraId :: p < n && CandidateFor(g, p, v) ==> Ratio(g, v, p) <= Ratio(g, v, b)
  {
    if exists p: CameraId :: p < n - 1 && CandidateFor(g, p, v) {
      b := BestBelow(g, v, n - 1);
      if CandidateFor(g, n - 1, v) && Ratio(g, v, b) < Ratio(g, v, n - 1) {
        b := n - 1;
      }
    } else {
      b := n - 1;
    }
  }

  ghost predicate HasCandidate(g: Graph, v: CameraId) {
    exists p: CameraId :: CandidateFor(g, p, v)
  }

  lemma {:induction false} SomeBest(g: Graph, v: CameraId)
    requires HasCandidate(g, v)
    ensures exists b: CameraId :: AmongBest(g, b, v)
  {
    var p: CameraId :| CandidateFor(g, p, v);
    var b := BestBelow(g, v, |g|);
    assert AmongBest(g, b, v);
  }

  lemma {:induction false} AloneIsSole(g: Graph, c: CameraId, v: CameraId)
    requires AmongBest(g, c, v) && forall p: CameraId :: AmongBest(g, p, v) ==> p == c
    ensures SoleBest(g, c, v)
  {
    forall p: CameraId | CandidateFor(g, p, v) && p != c ensures Ratio(g, v, p) < Ratio(g, v, c) {
      assert !AmongBest(g, p, v);
    }
  }

  /** A best primary for v: c whenever it is one if c is favoured, else another whenever there is one. */
  ghost function Pick(g: Graph, v: CameraId, c: CameraId, favoured: bool): (b: CameraId)
    requires HasCandidate(g, v)
    ensures AmongBest(g, b, v)
    ensures favoured && AmongBest(g, c, v) ==> b == c
    ensures !favoured && b == c ==> SoleBest(g, c, v)
  {
    SomeBest(g, v);
    if favoured && AmongBest(g, c, v) then c
    else if exists p: CameraId :: p != c && AmongBest(g, p, v) then
      var p: CameraId :| p != c && AmongBest(g, p, v); p
    else
      AloneIsSole(g, c, v);
      c
  }

  ghost function Picks(g: Graph, c: CameraId, favoured: bool): map<CameraId, CameraId> {
    map v: CameraId | 0 <= v < |g| && HasCandidate(g, v) :: Pick(g, v, c, favoured)
  }

  ghost function PickedLists(g: Graph, c: CameraId, favoured: bool): Lists {
    Assigned(GreedyLists(g), Picks(g, c, favoured))
  }

  /** Whatever the picks, some order of the hash maps makes them. */
  lemma {:induction false} PickedIsResult(g: Graph, settings: Settings, c: CameraId, favoured: bool)
    requires EdgesBack(g) && settings.mode == Performance
    ensures ModeResult(g, settings, GreedyPrimaries(g), PickedLists(g, c, favoured))
  {
    PicksAssign(g, c, favoured);
    GreedyIsModerate(g);
  }

  lemma {:induction false} GreedyListsCandidates(g: Graph)
    requires EdgesBack(g)
    ensures forall p: CameraId, v: CameraId :: Lists?(GreedyLists(g), p, v) <==> CandidateFor(g, p, v)
  {
    GreedyIsModerate(g);
    forall p: CameraId, v: CameraId ensures Lists?(GreedyLists(g), p, v) <==> CandidateFor(g, p, v) {
      ListsCandidates(g, GreedyPrimaries(g), GreedyLists(g), p, v);
    }
  }

  lemma {:induction false} PicksAssign(g: Graph, c: CameraId, favoured: bool)
    requires EdgesBack(g)
    ensures IsAssignment(g, GreedyLists(g), Picks(g, c, favoured), PickedLists(g, c, favoured))
  {
    var base, best := GreedyLists(g), Picks(g, c, favoured);
    GreedyListsCandidates(g);
    forall v: CameraId | v in best ensures IsBest(g, base, v, best[v]) {
      assert AmongBest(g, best[v], v);
    }
    forall v: CameraId ensures v in best <==> exists p: CameraId :: Lists?(base, p, v) {
      if p: CameraId :| Lists?(base, p, v) {
        assert CandidateFor(g, p, v);
      }
      if v in best {
        var p: CameraId :| CandidateFor(g, p, v);
        assert Lists?(base, p, v);
      }
    }
  }

  lemma {:induction false} PickedMembers(g: Graph, c: CameraId, favoured: bool, v: CameraId)
    requires EdgesBack(g)
    ensures Lists?(PickedLists(g, c, favoured), c, v) <==> CandidateFor(g, c, v) && Pick(g, v, c, favoured) == c
  {
    var base := GreedyLists(g);
    GreedyIsModerate(g);
    ListsCandidates(g, GreedyPrimaries(g), base, c, v);
    if c in base {
      KeepMembers(base[c], c, Picks(g, c, favoured));
    }
    if CandidateFor(g, c, v) {
      assert HasCandidate(g, v);
    }
  }

  ghost predicate KeepsInEvery(g: Graph, settings: Settings, c: CameraId) {
    forall primaries0: seq<CameraId>, lists0: Lists ::
      ModeResult(g, settings, primaries0, lists0) ==> ListsOutside(lists0, StripSet(settings), c)
  }

  ghost predicate KeepsInSome(g: Graph, settings: Settings, c: CameraId) {
    exists primaries0: seq<CameraId>, lists0: Lists ::
      ModeResult(g, settings, primaries0, lists0) && ListsOutside(lists0, StripSet(settings), c)
  }

  /** Whatever the order of the hash maps, a camera keeps a secondary exactly if it is the sole best primary
      of a camera that is not stripped. */
  lemma {:induction false} KeepsInEveryIff(g: Graph, settings: Settings, c: CameraId)
    requires EdgesBack(g) && settings.mode == Performance
    ensures KeepsInEvery(g, settings, c) <==> SurelyKeeps(g, settings, c)
  {
    if SurelyKeeps(g, settings, c) {
      forall primaries0: seq<CameraId>, lists0: Lists | ModeResult(g, settings, primaries0, lists0)
        ensures ListsOutside(lists0, StripSet(settings), c)
      {
        PerformanceKeepsSecondary(g, settings, primaries0, lists0, c);
      }
    }
    if KeepsInEvery(g, settings, c) {
      PickedIsResult(g, settings, c, false);
      var lists := PickedLists(g, c, false);
      assert ListsOutside(lists, StripSet(settings), c);
      var v: CameraId :| v in lists[c] && v !in StripSet(settings);
      PickedMembers(g, c, false, v);
    }
  }

  /** For some order it does exactly if it is among the best of one. */
  lemma {:induction false} KeepsInSomeIff(g: Graph, settings: Settings, c: CameraId)
    requires EdgesBack(g) && settings.mode == Performance
    ensures KeepsInSome(g, settings, c) <==> MayKeep(g, settings, c)
  {
    if KeepsInSome(g, settings, c) {
      var primaries0: seq<CameraId>, lists0: Lists :|
        ModeResult(g, settings, primaries0, lists0) && ListsOutside(lists0, StripSet(settings), c);
      PerformanceKeepsSecondary(g, settings, primaries0, lists0, c);
    }
    if MayKeep(g, settings, c) {
      var v: CameraId :| v !in StripSet(settings) && AmongBest(g, c, v);
      PickedIsResult(g, settings, c, true);
      PickedMembers(g, c, true, v);
      assert Lists?(PickedLists(g, c, true), c, v);
      assert ListsOutside(PickedLists(g, c, true), StripSet(settings), c);
    }
  }

  ghost predicate PrimaryInEvery(g: Graph, settings: Settings, c: CameraId) {
    forall primaries0: seq<CameraId>, lists0: Lists, primaries: seq<CameraId>, lists: Lists ::
      ModeResult(g, settings, primaries0, lists0) && Finished(settings, primaries0, lists0, primaries, lists) ==>
        c in primaries
  }

  /** And it ends primary for every order exactly if that holds or it is a depth camera. */
  lemma {:induction false} PrimaryInEveryIff(g: Graph, settings: Settings, c: CameraId)
    requires EdgesBack(g) && settings.mode == Performance
    ensures PrimaryInEvery(g, settings, c) <==> c in settings.depthIds || SurelyKeeps(g, settings, c)
  {
    if c in settings.depthIds || SurelyKeeps(g, settings, c) {
      forall primaries0: seq<CameraId>, lists0: Lists, primaries: seq<CameraId>, lists: Lists
        | ModeResult(g, settings, primaries0, lists0) && Finished(settings, primaries0, lists0, primaries, lists)
        ensures c in primaries
      {
        EveryModeHasFacts(g, settings, primaries0, lists0);
        FinishedMember(g, settings, primaries0, lists0, primaries, lists, c);
        PerformanceKeepsSecondary(g, settings, primaries0, lists0, c);
      }
    }
    if PrimaryInEvery(g, settings, c) && c !in settings.depthIds {
      PickedPrimary(g, settings, c);
    }
  }

  lemma {:induction false} PickedPrimary(g: Graph, settings: Settings, c: CameraId)
    requires EdgesBack(g) && settings.mode == Performance
    requires PrimaryInEvery(g, settings, c) && c !in settings.depthIds
    ensures SurelyKeeps(g, settings, c)
  {
    var primaries0, lists0 := GreedyPrimaries(g), PickedLists(g, c, false);
    PickedIsResult(g, settings, c, false);
    EveryModeHasFacts(g, settings, primaries0, lists0);
    var stripped := Stripped(lists0, StripSet(settings));
    var survivors := Survivors(primaries0, stripped);
    var added := NewDepthIds(survivors, settings.depthIds);
    assert Finished(settings, primaries0, lists0, survivors + added, WithDepth(stripped, added));
    FinishedMember(g, settings, primaries0, lists0, survivors + added, WithDepth(stripped, added), c);
    var v: CameraId :| v in lists0[c] && v !in StripSet(settings);
    PickedMembers(g, c, false, v);
  }

  /** Every camera given twice is the sole best primary of one that is not stripped. */
  ghost predicate RepeatedSurelyKeep(g: Graph, settings: Settings) {
    forall i, j :: 0 <= i < j < |settings.depthIds| && settings.depthIds[i] == settings.depthIds[j] ==>
      SurelyKeeps(g, settings, settings.depthIds[i])
  }

  /** The constructor's assertion in performance mode: it holds for every order of the hash maps exactly under
      that condition. */
  lemma {:induction false} AssertionHoldsInEveryIff(g: Graph, settings: Settings)
    requires EdgesBack(g) && settings.mode == Performance
    ensures (forall primaries0: seq<CameraId>, lists0: Lists ::
               ModeResult(g, settings, primaries0, lists0) ==> RepeatedKeep(settings, lists0)) <==>
            RepeatedSurelyKeep(g, settings)
  {
    forall c: CameraId ensures KeepsInEvery(g, settings, c) <==> SurelyKeeps(g, settings, c) {
      KeepsInEveryIff(g, settings, c);
    }
    if forall primaries0: seq<CameraId>, lists0: Lists ::
         ModeResult(g, settings, primaries0, lists0) ==> RepeatedKeep(settings, lists0) {
      forall i, j | 0 <= i < j < |settings.depthIds| && settings.depthIds[i] == settings.depthIds[j]
        ensures KeepsInEvery(g, settings, settings.depthIds[i])
      {
      }
    }
  }

  function Row(): Graph {
    [NodeWith([ConnectedCam(1, 0.6), ConnectedCam(2, 0.6)]),
     NodeWith([ConnectedCam(0, 0.6)]),
     NodeWith([ConnectedCam(0, 0.6)])]
  }

  lemma {:induction false} RowIsSound()
    ensures Symmetric(Row()) && Loopless(Row()) && Counted(Row()) && HasEdge(Row())
    ensures Neighbours(Row(), 0) == [1, 2] && Neighbours(Row(), 1) == [0] && Neighbours(Row(), 2) == [0]
  {
    var g := Row();
    assert Neighbours(g, 0) == [1, 2] && Neighbours(g, 1) == [0] && Neighbours(g, 2) == [0];
    forall u: CameraId, v: CameraId | Adjacent(g, u, v) ensures u != v && Adjacent(g, v, u) {
    }
    assert Adjacent(g, 0, 1);
  }

  lemma {:induction false} RowIsModerate()
    ensures IsModerate(Row(), [1, 2], map[1 := [0], 2 := [0]])
  {
    var g := Row();
    RowIsSound();
    assert Precedes(g, 1, 0) && Adjacent(g, 1, 0) && 1 in [1, 2];
    assert Covered(g, [1, 2], 0);
    assert !Covered(g, [1, 2], 1) && !Covered(g, [1, 2], 2);
  }

  lemma {:induction false} KeepOne(x: CameraId, p: CameraId, best: map<CameraId, CameraId>)
    ensures Keep([x], p, best) == if x in best && best[x] != p then [] else [x]
  {
    assert [x][1..] == [];
  }

  lemma {:induction false} RowAssignedTo(winner: CameraId)
    requires winner in {1, 2}
    ensures var base: Lists := map[1 := [0], 2 := [0]];
            IsAssignment(Row(), base, map[0 := winner], base[3 - winner := []])
  {
    var base: Lists := map[1 := [0], 2 := [0]];
    RowIsSound();
    var best: map<CameraId, CameraId> := map[0 := winner];
    var g := Row();
    assert Adjacent(g, 0, 1) && Adjacent(g, 0, 2);
    assert FirstIndex(g[0].pairs, 1) == 0 && FirstIndex(g[0].pairs, 2) == 1;
    assert Ratio(g, 0, 1) == Ratio(g, 0, 2) == 0.6;
    assert IsBest(g, base, 0, winner);
    KeepOne(0, winner, best);
    KeepOne(0, 3 - winner, best);
    assert Lists?(base, 1, 0) && Lists?(base, 2, 0);
  }

  /** With equal ratios the order of the hash map decides: either primary of the row may keep camera 0. */
  lemma {:induction false} TieIsFree()
    ensures PerformanceResult(Row(), [1, 2], map[1 := [0], 2 := []])
    ensures PerformanceResult(Row(), [1, 2], map[1 := [], 2 := [0]])
  {
    var base: Lists := map[1 := [0], 2 := [0]];
    RowIsModerate();
    RowAssignedTo(1);
    RowAssignedTo(2);
    assert base[2 := []] == map[1 := [0], 2 := []] && base[1 := []] == map[1 := [], 2 := [0]];
  }

  /** Every camera given twice keeps a secondary by what the mode computed. */
  ghost predicate RepeatedKeep(settings: Settings, lists0: Lists) {
    forall i, j :: 0 <= i < j < |settings.depthIds| && settings.depthIds[i] == settings.depthIds[j] ==>
      ListsOutside(lists0, StripSet(settings), settings.depthIds[i])
  }

  /** The same, from graph and settings alone. */
  ghost predicate RepeatedKeepSecondary(g: Graph, settings: Settings)
    requires settings.mode != Performance
  {
    forall i, j :: 0 <= i < j < |settings.depthIds| && settings.depthIds[i] == settings.depthIds[j] ==>
      KeepsSecondary(g, settings, settings.depthIds[i])
  }

  /** Does any pair come through? For the greedy modes: is a camera outside the stripped ones unchosen? */
  ghost predicate PairRemains(g: Graph, settings: Settings) {
    match settings.mode
    case Precision => exists c: CameraId :: PartnerOutside(g, StripSet(settings), c)
    case Manual => exists c: CameraId :: SetupOutside(settings.manualSetup, StripSet(settings), c)
    case _ => exists v: CameraId :: Unchosen(g, StripSet(settings), v)
  }

  lemma {:induction false} PairRemainsIff(g: Graph, settings: Settings, primaries0: seq<CameraId>, lists0: Lists,
                       primaries: seq<CameraId>, lists: Lists)
    requires Symmetric(g) && Loopless(g) && ModeResult(g, settings, primaries0, lists0)
    requires ModeFacts(g, settings, primaries0, lists0)
    requires Finished(settings, primaries0, lists0, primaries, lists)
    ensures SomeSecondary(lists) <==> PairRemains(g, settings)
  {
    var bad := StripSet(settings);
    forall c: CameraId ensures c in lists && lists[c] != [] <==> ListsOutside(lists0, bad, c) {
      FinishedMember(g, settings, primaries0, lists0, primaries, lists, c);
    }
    assert SomeSecondary(lists) <==> exists c: CameraId :: ListsOutside(lists0, bad, c);
    match settings.mode
    case Moderate =>
      ListedIsUnchosen(g, primaries0, lists0, bad);
    case Performance =>
      var base: Lists, best: map<CameraId, CameraId> :|
        IsModerate(g, primaries0, base) && IsAssignment(g, base, best, lists0);
      ListedIsUnchosen(g, primaries0, base, bad);
      AssignmentKeepsOutside(g, base, best, lists0, bad);
    case Precision =>
      forall c: CameraId ensures ListsOutside(lists0, bad, c) <==> PartnerOutside(g, bad, c) {
        KeepsSecondaryIff(g, settings, primaries0, lists0, c);
      }
    case Manual =>
      forall c: CameraId ensures ListsOutside(lists0, bad, c) <==> SetupOutside(settings.manualSetup, bad, c) {
        KeepsSecondaryIff(g, settings, primaries0, lists0, c);
      }
  }

  lemma {:induction false} ListedIsUnchosen(g: Graph, primaries: seq<CameraId>, lists: Lists, bad: set<CameraId>)
    requires Symmetric(g) && Loopless(g) && IsModerate(g, primaries, lists)
    ensures (exists c: CameraId :: ListsOutside(lists, bad, c)) <==>
            (exists v: CameraId :: Unchosen(g, bad, v))
  {
    if c: CameraId :| ListsOutside(lists, bad, c) {
      var v: CameraId :| v in lists[c] && v !in bad;
      SecondaryIsNotPrimary(g, primaries, lists, c, v);
      PrimaryIffChosen(g, primaries, lists, v);
      assert Unchosen(g, bad, v);
    }
    if v: CameraId :| Unchosen(g, bad, v) {
      PrimaryIffChosen(g, primaries, lists, v);
      var p := ModerateCoversFromBelow(g, primaries, lists, v);
      assert ListsOutside(lists, bad, p);
    }
  }

  lemma {:induction false} AssignmentKeepsOutside(g: Graph, base: Lists, best: map<CameraId, CameraId>, now: Lists,
                               bad: set<CameraId>)
    requires IsAssignment(g, base, best, now)
    ensures (exists c: CameraId :: ListsOutside(base, bad, c)) <==> (exists c: CameraId :: ListsOutside(now, bad, c))
  {
    if c: CameraId :| ListsOutside(base, bad, c) {
      var v: CameraId :| v in base[c] && v !in bad;
      AssignedExactlyOnce(g, base, best, now, c, v);
      assert Lists?(now, best[v], v);
      assert ListsOutside(now, bad, best[v]);
    }
    if c: CameraId :| ListsOutside(now, bad, c) {
      KeepMembers(base[c], c, best);
      assert ListsOutside(base, bad, c);
    }
  }

  /** With nothing stripped a pair remains exactly if the graph has an edge. */
  lemma {:induction false} PairRemainsUnstripped(g: Graph, settings: Settings)
    requires Symmetric(g) && Loopless(g) && settings.mode != Manual && StripSet(settings) == {}
    ensures PairRemains(g, settings) <==> HasEdge(g)
  {
    if HasEdge(g) {
      var u: CameraId, v: CameraId :| Adjacent(g, u, v);
      assert Adjacent(g, v, u) && PartnerOutside(g, {}, u);
      ChosenNotAdjacent(g, u, v);
      assert Unchosen(g, {}, u) || Unchosen(g, {}, v);
    }
  }

  /** With one camera d stripped, precision mode still keeps every edge; the greedy modes keep a pair
      exactly if an edge avoids d or d's only partner has the larger id. */
  lemma {:induction false} PairRemainsBesides(g: Graph, settings: Settings, d: CameraId)
    requires Symmetric(g) && Loopless(g) && Counted(g) && d < |g|
    requires settings.mode != Manual && StripSet(settings) == {d}
    ensures PairRemains(g, settings) <==>
              if settings.mode == Precision then HasEdge(g) else EdgeAvoids(g, d) || LonePartnerAbove(g, d)
  {
    if settings.mode == Precision {
      if HasEdge(g) {
        var u: CameraId, v: CameraId :| Adjacent(g, u, v);
        assert Adjacent(g, v, u);
        assert if v == d then PartnerOutside(g, {d}, v) else PartnerOutside(g, {d}, u);
      }
    } else {
      UnchosenBesidesIff(g, d);
    }
  }

  /** Cameras 1 and 2 overlap camera 0 only, which is stripped. The greedy modes start at 1 and 2, so no
      pair is left, although the graph has edges and the rig is accepted. */
  lemma {:induction false} RowLosesItsPairs(mode: Mode, primaries0: seq<CameraId>, lists0: Lists,
                         primaries: seq<CameraId>, lists: Lists)
    requires mode in {Moderate, Performance}
    requires ModeResult(Row(), Settings(mode, [0], false, []), primaries0, lists0)
    requires Finished(Settings(mode, [0], false, []), primaries0, lists0, primaries, lists)
    ensures HasEdge(Row()) && primaries != [] && !SomeSecondary(lists)
  {
    var g, settings := Row(), Settings(mode, [0], false, []);
    RowIsSound();
    assert !EdgeAvoids(g, 0);
    assert !LonePartnerAbove(g, 0);
    assert StripSet(settings) == {0};
    PairRemainsBesides(g, settings, 0);
    EveryModeHasFacts(g, settings, primaries0, lists0);
    PairRemainsIff(g, settings, primaries0, lists0, primaries, lists);
    ValidIff(g, settings, primaries0, lists0, primaries, lists);
  }

  /** Precision mode's "all cameras are primary cameras": it is so exactly when every camera is a depth
      camera or has a partner that is not stripped. */
  lemma {:induction false} AllPrimaryIff(g: Graph, settings: Settings, primaries0: seq<CameraId>, lists0: Lists,
                      primaries: seq<CameraId>, lists: Lists)
    requires settings.mode == Precision && ModeResult(g, settings, primaries0, lists0)
    requires ModeFacts(g, settings, primaries0, lists0)
    requires Finished(settings, primaries0, lists0, primaries, lists)
    ensures (forall c: CameraId :: c < |g| ==> c in primaries) <==>
            (forall c: CameraId :: c < |g| ==> c in settings.depthIds || PartnerOutside(g, StripSet(settings), c))
  {
    forall c: CameraId | c < |g|
      ensures c in primaries <==> c in settings.depthIds || PartnerOutside(g, StripSet(settings), c)
    {
      FinishedMember(g, settings, primaries0, lists0, primaries, lists, c);
      KeepsSecondaryIff(g, settings, primaries0, lists0, c);
    }
  }

  /** An isolated camera is not primary in precision mode. */
  lemma {:induction false} IsolatedIsDropped(primaries0: seq<CameraId>, lists0: Lists, primaries: seq<CameraId>, lists: Lists)
    requires ModeResult(WithIsolated(), Settings(Precision, [], false, []), primaries0, lists0)
    requires Finished(Settings(Precision, [], false, []), primaries0, lists0, primaries, lists)
    ensures 0 in primaries && 1 in primaries && 2 !in primaries
  {
    var g, settings := WithIsolated(), Settings(Precision, [], false, []);
    WithIsolatedIsSound();
    EveryModeHasFacts(g, settings, primaries0, lists0);
    assert StripSet(settings) == {};
    forall c: CameraId ensures c in primaries <==> PartnerOutside(g, {}, c) {
      FinishedMember(g, settings, primaries0, lists0, primaries, lists, c);
      KeepsSecondaryIff(g, settings, primaries0, lists0, c);
    }
  }

  function WithIsolated(): Graph {
    [NodeWith([ConnectedCam(1, 0.6)]), NodeWith([ConnectedCam(0, 0.6)]), NodeWith([])]
  }

  lemma {:induction false} WithIsolatedIsSound()
    ensures Symmetric(WithIsolated()) && Loopless(WithIsolated())
    ensures PartnerOutside(WithIsolated(), {}, 0) && PartnerOutside(WithIsolated(), {}, 1)
    ensures !PartnerOutside(WithIsolated(), {}, 2)
  {
    var g := WithIsolated();
    assert Neighbours(g, 0) == [1] && Neighbours(g, 1) == [0] && Neighbours(g, 2) == [];
    assert Adjacent(g, 0, 1) && Adjacent(g, 1, 0);
  }

  lemma {:induction false} WithoutNothing(xs: seq<CameraId>)
    ensures Without(xs, {}) == xs
  {
    if xs != [] {
      WithoutNothing(xs[1..]);
    }
  }

  /** Cameras taken from the part of the order already visited precede the next one. */
  lemma {:induction false} BehindAll(g: Graph, taken: seq<CameraId>, order: seq<CameraId>, done: nat)
    requires InGraph(g, order) && Ascending(g, order) && done < |order|
    requires forall p :: p in taken ==> p in order[..done]
    ensures forall k :: 0 <= k < |taken| ==> taken[k] < |g| && Precedes(g, taken[k], order[done])
  {
    forall k | 0 <= k < |taken| ensures taken[k] < |g| && Precedes(g, taken[k], order[done]) {
      assert taken[k] in taken;
      var l :| 0 <= l < done && order[l] == taken[k];
    }
  }

  /** The state of the greedy loop after the first done cameras of the order. */
  ghost predicate GreedySoFar(g: Graph, order: seq<CameraId>, done: nat, primaries: seq<CameraId>, lists: Lists,
                              visited: set<CameraId>)
    requires InGraph(g, order) && done <= |order|
  {
    && InGraph(g, primaries) && Ascending(g, primaries)
    && (forall p :: p in primaries ==> p in order[..done])
    && (forall p :: p in lists <==> p in primaries)
    && (forall p :: p in lists ==> lists[p] == Neighbours(g, p))
    && (forall c: CameraId :: c in visited <==> Reached(g, primaries, c))
    && (forall k :: 0 <= k < done ==> (order[k] in primaries <==> !Covered(g, primaries, order[k])))
  }

  ghost predicate Reached(g: Graph, primaries: seq<CameraId>, c: CameraId) {
    c in primaries || exists p: CameraId :: p in primaries && Adjacent(g, p, c)
  }

  lemma {:induction false} ReachedNext(g: Graph, primaries: seq<CameraId>, c: CameraId, x: CameraId)
    ensures Reached(g, primaries + [c], x) <==> Reached(g, primaries, x) || x == c || Adjacent(g, c, x)
  {
    var more := primaries + [c];
    assert forall p: CameraId :: p in more <==> p in primaries || p == c;
  }

  lemma {:induction false} GreedyTakes(g: Graph, order: seq<CameraId>, done: nat, primaries: seq<CameraId>, lists: Lists,
                    visited: set<CameraId>)
    requires InGraph(g, order) && Ascending(g, order) && done < |order|
    requires GreedySoFar(g, order, done, primaries, lists, visited) && order[done] !in visited
    ensures var c := order[done];
            GreedySoFar(g, order, done + 1, primaries + [c], lists[c := Neighbours(g, c)],
                        visited + {c} + SetOf(Neighbours(g, c)))
  {
    var c := order[done];
    BehindAll(g, primaries, order, done);
    var more := primaries + [c];
    forall k | 0 <= k < done ensures Covered(g, more, order[k]) <==> Covered(g, primaries, order[k]) {
      assert !Precedes(g, c, order[k]);
      if Covered(g, primaries, order[k]) {
        var d: CameraId :| d in primaries && d < |g| && Precedes(g, d, order[k]) && Adjacent(g, d, order[k]);
        assert d in more;
      }
    }
    forall k | 0 <= k < done ensures order[k] in more <==> order[k] in primaries {
      assert Precedes(g, order[k], c);
    }
    assert !Covered(g, more, c);
    forall x: CameraId ensures x in visited + {c} + SetOf(Neighbours(g, c)) <==> Reached(g, more, x) {
      ReachedNext(g, primaries, c, x);
    }
    assert order[..done + 1] == order[..done] + [c];
  }

  function Assigned(base: Lists, best: map<CameraId, CameraId>): Lists {
    map p | p in base :: Keep(base[p], p, best)
  }

  /** Every list of ps except the winner's has dropped s. */
  function Dropped(lists: Lists, s: CameraId, winner: CameraId, ps: seq<CameraId>): Lists {
    map p | p in lists :: if p in ps && p != winner then Remove(lists[p], s) else lists[p]
  }

  lemma {:induction false} DroppedNext(lists: Lists, s: CameraId, winner: CameraId, ps: seq<CameraId>, k: nat)
    requires k < |ps| && ps[k] in lists
    ensures var now := Dropped(lists, s, winner, ps[..k]);
            Dropped(lists, s, winner, ps[..k + 1]) ==
              if ps[k] == winner then now else now[ps[k] := Remove(now[ps[k]], s)]
  {
    assert ps[..k + 1] == ps[..k] + [ps[k]];
    RemoveTwice(lists[ps[k]], s);
  }

  lemma {:induction false} DroppedIsAssigned(base: Lists, best: map<CameraId, CameraId>, s: CameraId, winner: CameraId,
                          prims: seq<CameraId>)
    requires s !in best && forall p :: p in prims <==> Lists?(base, p, s)
    ensures Dropped(Assigned(base, best), s, winner, prims) == Assigned(base, best[s := winner])
  {
    forall p | p in base
      ensures Dropped(Assigned(base, best), s, winner, prims)[p] == Keep(base[p], p, best[s := winner])
    {
      KeepStep(base[p], p, best, s, winner);
      if p !in prims {
        KeepMembers(base[p], p, best);
        RemoveAbsent(Keep(base[p], p, best), s);
      }
    }
  }

  lemma {:induction false} NothingAssignedYet(base: Lists)
    ensures Assigned(base, map[]) == base
  {
    forall p | p in base ensures Keep(base[p], p, map[]) == base[p] {
      KeepNothingAssigned(base[p], p);
    }
  }

  /** The edge back to every listing primary exists, so the ratio lookup succeeds. */
  lemma {:induction false} ListersAreNeighbours(g: Graph, primaries: seq<CameraId>, base: Lists, s: CameraId, prims: seq<CameraId>)
    requires EdgesBack(g) && IsModerate(g, primaries, base)
    requires forall p :: p in prims <==> Lists?(base, p, s)
    ensures forall k :: 0 <= k < |prims| ==> Adjacent(g, s, prims[k])
  {
    forall k | 0 <= k < |prims| ensures Adjacent(g, s, prims[k]) {
      assert prims[k] in prims;
      PrimaryIffChosen(g, primaries, base, prims[k]);
      assert Adjacent(g, prims[k], s);
    }
  }

  lemma {:induction false} RemoveTwice(xs: seq<CameraId>, x: CameraId)
    ensures Remove(Remove(xs, x), x) == Remove(xs, x)
  {
    if xs != [] {
      RemoveTwice(xs[1..], x);
    }
  }

  /** primary_from_secondary: for every listed secondary, the primaries that list it. */
  method Invert(lists: Lists) returns (inverse: Lists)
    ensures forall s, p :: s in inverse && p in inverse[s] <==> Lists?(lists, p, s)
    ensures forall s :: s in inverse ==> inverse[s] != []
  {
    inverse := map[];
    var todo := lists.Keys;
    while todo != {}
      invariant todo <= lists.Keys
      invariant forall s, p :: s in inverse && p in inverse[s] <==> Lists?(lists, p, s) && p !in todo
      invariant forall s :: s in inverse ==> inverse[s] != []
      decreases todo
    {
      var prim :| prim in todo;
      for k := 0 to |lists[prim]|
        invariant forall s, p :: s in inverse && p in inverse[s] <==>
          (Lists?(lists, p, s) && p !in todo) || (p == prim && s in lists[prim][..k])
        invariant forall s :: s in inverse ==> inverse[s] != []
      {
        var sec := lists[prim][k];
        inverse := inverse[sec := (if sec in inverse then inverse[sec] else []) + [prim]];
      }
      assert lists[prim][..|lists[prim]|] == lists[prim];
      todo := todo - {prim};
    }
  }

  /** The ratios seen from the secondary and std::max_element over them: the first largest one. */
  method BestPrimary(g: Graph, s: CameraId, prims: seq<CameraId>) returns (best: CameraId)
    requires prims != [] && forall k :: 0 <= k < |prims| ==> Adjacent(g, s, prims[k])
    ensures exists k :: 0 <= k < |prims| && best == prims[k] &&
              forall l :: 0 <= l < |prims| ==>
                Ratio(g, s, prims[l]) <= Ratio(g, s, best) && (l < k ==> Ratio(g, s, prims[l]) < Ratio(g, s, best))
  {
    var ratios: seq<real> := [];
    for k := 0 to |prims|
      invariant |ratios| == k && forall l :: 0 <= l < k ==> ratios[l] == Ratio(g, s, prims[l])
    {
      ratios := ratios + [Ratio(g, s, prims[k])];
    }
    var argmax := 0;
    for k := 1 to |prims|
      invariant argmax < k
      invariant forall l :: 0 <= l < k ==> ratios[l] <= ratios[argmax]
      invariant forall l :: 0 <= l < argmax ==> ratios[l] < ratios[argmax]
    {
      if ratios[argmax] < ratios[k] {
        argmax := k;
      }
    }
    best := prims[argmax];
  }

  /** Lists whose key is still to do are as they were. */
  function PartlyStripped(lists: Lists, bad: set<CameraId>, todo: set<CameraId>): Lists {
    map p | p in lists :: if p in todo then lists[p] else Without(lists[p], bad)
  }

  lemma {:induction false} StripNext(lists: Lists, bad: set<CameraId>, todo: set<CameraId>, p: CameraId)
    requires p in todo && p in lists
    ensures PartlyStripped(lists, bad, todo)[p := Without(lists[p], bad)] == PartlyStripped(lists, bad, todo - {p})
  {
  }

  /** One list: the depth cameras in it are collected first and erased afterwards. */
  method StripList(list: seq<CameraId>, depthIds: seq<CameraId>) returns (kept: seq<CameraId>)
    ensures kept == Without(list, SetOf(depthIds))
  {
    ghost var bad := SetOf(depthIds);
    var camsToRemove: seq<CameraId> := [];
    for k := 0 to |list|
      invariant camsToRemove == Among(list[..k], bad)
    {
      AmongNext(list, bad, k);
      if list[k] in depthIds {
        camsToRemove := camsToRemove + [list[k]];
      }
    }
    assert list[..|list|] == list;
    EraseAmong(list, bad);
    kept := EraseInTurn(list, camsToRemove);
  }

  lemma {:induction false} NothingStripped(lists: Lists)
    ensures Stripped(lists, {}) == lists
  {
    forall p | p in lists ensures Without(lists[p], {}) == lists[p] {
      WithoutNothing(lists[p]);
    }
  }

  lemma {:induction false} AmongNext(xs: seq<CameraId>, bad: set<CameraId>, k: nat)
    requires k < |xs|
    ensures Among(xs[..k + 1], bad) == Among(xs[..k], bad) + if xs[k] in bad then [xs[k]] else []
  {
    if k > 0 {
      AmongNext(xs[1..], bad, k - 1);
      assert xs[..k + 1][1..] == xs[1..][..k] && xs[..k][1..] == xs[1..][..k - 1];
    }
  }

  method EraseInTurn(xs: seq<CameraId>, out: seq<CameraId>) returns (r: seq<CameraId>)
    requires CanEraseEach(xs, out)
    ensures r == EraseEach(xs, out)
  {
    r := xs;
    for k := 0 to |out|
      invariant CanEraseEach(r, out[k..]) && EraseEach(r, out[k..]) == EraseEach(xs, out)
    {
      assert out[k..][1..] == out[k + 1..];
      r := EraseFirst(r, out[k]);
    }
  }

  /** Among the first k depth ids, every one given twice was primary to begin with. */
  ghost predicate NoFreshRepeat(primaries: seq<CameraId>, ids: seq<CameraId>, k: nat)
    requires k <= |ids|
  {
    forall i, j :: 0 <= i < j < k && ids[i] == ids[j] ==> ids[i] in primaries
  }

  lemma {:induction false} NoFreshRepeatNext(primaries: seq<CameraId>, ids: seq<CameraId>, k: nat)
    requires k < |ids|
    ensures NoFreshRepeat(primaries, ids, k + 1) <==>
            NoFreshRepeat(primaries, ids, k) && (ids[k] in ids[..k] ==> ids[k] in primaries)
  {
    if NoFreshRepeat(primaries, ids, k + 1) && ids[k] in ids[..k] {
      var i :| 0 <= i < k && ids[i] == ids[k];
    }
    assert forall i :: 0 <= i < k ==> ids[i] in ids[..k];
  }

  /** One turn of the depth loop: a camera already primary is only looked up, any other is added. */
  lemma {:induction false} AddDepthStep(survivors: seq<CameraId>, lists: Lists, ids: seq<CameraId>, k: nat)
    requires k < |ids|
    ensures var id, now, next := ids[k], NewDepthIds(survivors, ids[..k]), NewDepthIds(survivors, ids[..k + 1]);
            if id in survivors + now then next == now
            else
              && survivors + next == survivors + now + [id]
              && WithDepth(lists, next) == WithDepth(lists, now)[id := []]
  {
    NewDepthNext(survivors, ids, k);
  }

  /** The lookup finds an empty list exactly when the camera was added earlier in the loop. */
  lemma {:induction false} AddDepthLookup(survivors: seq<CameraId>, lists: Lists, ids: seq<CameraId>, k: nat)
    requires forall p :: p in survivors ==> p in lists && lists[p] != []
    requires k < |ids|
    ensures var id, now := ids[k], NewDepthIds(survivors, ids[..k]);
            if id in survivors + now then
              && id in WithDepth(lists, now)
              && (NoFreshRepeat(survivors, ids, k + 1) <==>
                  NoFreshRepeat(survivors, ids, k) && WithDepth(lists, now)[id] != [])
            else NoFreshRepeat(survivors, ids, k + 1) <==> NoFreshRepeat(survivors, ids, k)
  {
    NewDepthMembers(survivors, ids[..k]);
    NoFreshRepeatNext(survivors, ids, k);
  }

  lemma {:induction false} NewDepthNext(primaries: seq<CameraId>, ids: seq<CameraId>, k: nat)
    requires k < |ids|
    ensures var added := NewDepthIds(primaries, ids[..k]);
            NewDepthIds(primaries, ids[..k + 1]) == added + if ids[k] in primaries + added then [] else [ids[k]]
    decreases k
  {
    if k > 0 {
      assert ids[..k + 1][1..] == ids[1..][..k] && ids[..k][1..] == ids[1..][..k - 1];
      if ids[0] in primaries {
        NewDepthNext(primaries, ids[1..], k - 1);
      } else {
        NewDepthNext(primaries + [ids[0]], ids[1..], k - 1);
        var rest := NewDepthIds(primaries + [ids[0]], ids[1..][..k - 1]);
        assert primaries + ([ids[0]] + rest) == (primaries + [ids[0]]) + rest;
      }
    }
  }

  /** Exactly when the constructor's inner assertion holds, told by the result: every depth id given twice
      is a camera that kept secondaries. RepeatedKeep and RepeatedKeepSecondary tell it beforehand. */
  ghost predicate DuplicatesHavePartners(depthIds: seq<CameraId>, lists: Lists) {
    forall i, j :: 0 <= i < j < |depthIds| && depthIds[i] == depthIds[j] ==>
      depthIds[i] in lists && lists[depthIds[i]] != []
  }

  lemma {:induction false} SurvivorsList(primaries: seq<CameraId>, lists: Lists)
    ensures forall p :: p in Survivors(primaries, lists) ==> p in lists && lists[p] != []
  {
    AmongMembers(primaries, Idle(primaries, lists));
  }

  lemma {:induction false} RepeatsIff(primaries: seq<CameraId>, lists: Lists, ids: seq<CameraId>)
    requires forall p :: p in lists <==> p in primaries
    ensures var survivors := Survivors(primaries, lists);
            NoFreshRepeat(survivors, ids, |ids|) <==>
            DuplicatesHavePartners(ids, WithDepth(lists, NewDepthIds(survivors, ids)))
  {
    var survivors := Survivors(primaries, lists);
    AmongMembers(primaries, Idle(primaries, lists));
    NewDepthMembers(survivors, ids);
  }

  lemma {:induction false} ResultFromLists(g: Graph, settings: Settings, primaries0: seq<CameraId>, lists0: Lists,
                        primaries: seq<CameraId>, lists: Lists)
    requires ModeFacts(g, settings, primaries0, lists0) && Finished(settings, primaries0, lists0, primaries, lists)
    ensures DuplicatesHavePartners(settings.depthIds, lists) <==> RepeatedKeep(settings, lists0)
    ensures forall c: CameraId :: c in primaries <==> c in settings.depthIds || ListsOutside(lists0, StripSet(settings), c)
  {
    forall c: CameraId
      ensures c in lists && lists[c] != [] <==> ListsOutside(lists0, StripSet(settings), c)
      ensures c in primaries <==> c in settings.depthIds || ListsOutside(lists0, StripSet(settings), c)
    {
      FinishedMember(g, settings, primaries0, lists0, primaries, lists, c);
    }
  }

  lemma {:induction false} ListsFromSettings(g: Graph, settings: Settings, primaries0: seq<CameraId>, lists0: Lists)
    requires ModeResult(g, settings, primaries0, lists0) && settings.mode != Performance
    ensures RepeatedKeep(settings, lists0) <==> RepeatedKeepSecondary(g, settings)
    ensures forall c: CameraId :: ListsOutside(lists0, StripSet(settings), c) <==> KeepsSecondary(g, settings, c)
  {
    forall c: CameraId ensures ListsOutside(lists0, StripSet(settings), c) <==> KeepsSecondary(g, settings, c) {
      KeepsSecondaryIff(g, settings, primaries0, lists0, c);
    }
  }

  lemma {:induction false} ListsFromRatios(g: Graph, settings: Settings, primaries0: seq<CameraId>, lists0: Lists)
    requires EdgesBack(g) && ModeResult(g, settings, primaries0, lists0) && settings.mode == Performance
    ensures RepeatedSurelyKeep(g, settings) ==> RepeatedKeep(settings, lists0)
    ensures forall c: CameraId :: SurelyKeeps(g, settings, c) ==> ListsOutside(lists0, StripSet(settings), c)
    ensures forall c: CameraId :: ListsOutside(lists0, StripSet(settings), c) ==> MayKeep(g, settings, c)
  {
    forall c: CameraId
      ensures SurelyKeeps(g, settings, c) ==> ListsOutside(lists0, StripSet(settings), c)
      ensures ListsOutside(lists0, StripSet(settings), c) ==> MayKeep(g, settings, c)
    {
      PerformanceKeepsSecondary(g, settings, primaries0, lists0, c);
    }
  }

  // ----- who lists whom in the end -----

  /** Whether primary p ends with v among its secondaries, told from graph and settings; performance mode is free
      to choose between primaries of equal ratio. */
  ghost predicate ListedByGraph(g: Graph, settings: Settings, p: CameraId, v: CameraId, listed: bool) {
    if v in StripSet(settings) then !listed
    else
      match settings.mode
      case Precision => listed <==> Adjacent(g, p, v)
      case Moderate => listed <==> p < |g| && Chosen(g, p) && Adjacent(g, p, v)
      case Manual => listed <==> p < |settings.manualSetup| && v in settings.manualSetup[p]
      case Performance => (SoleBest(g, p, v) ==> listed) && (listed ==> AmongBest(g, p, v))
  }

  /** Performance mode: a camera that has candidates and is not stripped ends with exactly one of them. */
  ghost predicate SharedOut(g: Graph, settings: Settings, lists: Lists) {
    && (forall p: CameraId, q: CameraId, v: CameraId :: Lists?(lists, p, v) && Lists?(lists, q, v) ==> p == q)
    && forall v: CameraId :: HasCandidate(g, v) && v !in StripSet(settings) ==> exists p: CameraId :: Lists?(lists, p, v)
  }

  /** Post-processing takes the stripped cameras out of the lists of the mode and nothing else. */
  lemma {:induction false} FinishedLists(g: Graph, settings: Settings, primaries0: seq<CameraId>, lists0: Lists,
                                         primaries: seq<CameraId>, lists: Lists, p: CameraId, v: CameraId)
    requires ModeFacts(g, settings, primaries0, lists0)
    requires Finished(settings, primaries0, lists0, primaries, lists)
    ensures Lists?(lists, p, v) <==> Lists?(lists0, p, v) && v !in StripSet(settings)
  {
    var stripped := Stripped(lists0, StripSet(settings));
    var survivors := Survivors(primaries0, stripped);
    AmongMembers(primaries0, Idle(primaries0, stripped));
    NewDepthMembers(survivors, settings.depthIds);
    if p in lists0 {
      AmongMembers(lists0[p], StripSet(settings));
    }
  }

  lemma {:induction false} ModeLists(g: Graph, settings: Settings, primaries0: seq<CameraId>, lists0: Lists,
                                     p: CameraId, v: CameraId)
    requires ModeResult(g, settings, primaries0, lists0) && settings.mode != Performance
    ensures ListedByGraph(g, settings, p, v, Lists?(lists0, p, v) && v !in StripSet(settings))
  {
    if settings.mode == Moderate && p < |g| {
      PrimaryIffChosen(g, primaries0, lists0, p);
    }
  }

  lemma {:induction false} PerformanceLists(g: Graph, settings: Settings, primaries0: seq<CameraId>, lists0: Lists)
    requires EdgesBack(g) && ModeResult(g, settings, primaries0, lists0) && settings.mode == Performance
    ensures forall p: CameraId, v: CameraId :: SoleBest(g, p, v) ==> Lists?(lists0, p, v)
    ensures forall p: CameraId, v: CameraId :: Lists?(lists0, p, v) ==> AmongBest(g, p, v)
    ensures forall p: CameraId, q: CameraId, v: CameraId :: Lists?(lists0, p, v) && Lists?(lists0, q, v) ==> p == q
    ensures forall v: CameraId :: HasCandidate(g, v) ==> exists p: CameraId :: Lists?(lists0, p, v)
  {
    var base: Lists, best: map<CameraId, CameraId> :|
      IsModerate(g, primaries0, base) && IsAssignment(g, base, best, lists0);
    forall p: CameraId, v: CameraId
      ensures SoleBest(g, p, v) ==> Lists?(lists0, p, v)
      ensures Lists?(lists0, p, v) ==> AmongBest(g, p, v) && v in best && p == best[v]
    {
      if SoleBest(g, p, v) {
        SoleBestLists(g, primaries0, base, best, lists0, p, v);
      }
      if Lists?(lists0, p, v) {
        ListedIsAmongBest(g, primaries0, base, best, lists0, p, v);
        KeepMembers(base[p], p, best);
        AssignedExactlyOnce(g, base, best, lists0, p, v);
      }
    }
    forall v: CameraId | HasCandidate(g, v) ensures exists p: CameraId :: Lists?(lists0, p, v) {
      var p: CameraId :| CandidateFor(g, p, v);
      ListsCandidates(g, primaries0, base, p, v);
      AssignedExactlyOnce(g, base, best, lists0, p, v);
      assert Lists?(lists0, best[v], v);
    }
  }

  lemma {:induction false} ListsInTheEnd(g: Graph, settings: Settings, primaries0: seq<CameraId>, lists0: Lists,
                                         primaries: seq<CameraId>, lists: Lists)
    requires settings.mode == Performance ==> EdgesBack(g)
    requires ModeResult(g, settings, primaries0, lists0)
    requires Finished(settings, primaries0, lists0, primaries, lists)
    ensures forall p: CameraId, v: CameraId :: ListedByGraph(g, settings, p, v, Lists?(lists, p, v))
    ensures settings.mode == Performance ==> SharedOut(g, settings, lists)
  {
    EveryModeHasFacts(g, settings, primaries0, lists0);
    forall p: CameraId, v: CameraId ensures Lists?(lists, p, v) <==> Lists?(lists0, p, v) && v !in StripSet(settings) {
      FinishedLists(g, settings, primaries0, lists0, primaries, lists, p, v);
    }
    if settings.mode == Performance {
      PerformanceLists(g, settings, primaries0, lists0);
      forall v: CameraId | HasCandidate(g, v) && v !in StripSet(settings) ensures exists p: CameraId :: Lists?(lists, p, v) {
        var p: CameraId :| Lists?(lists0, p, v);
        assert Lists?(lists, p, v);
      }
    } else {
      forall p: CameraId, v: CameraId ensures ListedByGraph(g, settings, p, v, Lists?(lists, p, v)) {
        ModeLists(g, settings, primaries0, lists0, p, v);
      }
    }
  }

  // ----- the class -----

  class FrustumIntersectionGraph {
    var primaryCameras: seq<CameraId>
    var depthIds: seq<CameraId>
    var secondaryFromPrimary: Lists

    constructor ()
      ensures primaryCameras == [] && secondaryFromPrimary == map[]
    {
      primaryCameras, depthIds, secondaryFromPrimary := [], [], map[];
    }

    method SetPrecisionMode(g: Graph)
      modifies `primaryCameras, `secondaryFromPrimary
      ensures primaryCameras == Upto(|g|) && secondaryFromPrimary == AllNeighbours(g)
    {
      primaryCameras, secondaryFromPrimary := [], map[];
      for camId := 0 to |g|
        invariant primaryCameras == Upto(camId)
        invariant secondaryFromPrimary == map c: CameraId | 0 <= c < camId :: Neighbours(g, c)
      {
        primaryCameras := primaryCameras + [camId];
        secondaryFromPrimary := secondaryFromPrimary[camId := Neighbours(g, camId)];
      }
    }

    method SetModerateMode(g: Graph)
      modifies `primaryCameras, `secondaryFromPrimary
      ensures IsModerate(g, primaryCameras, secondaryFromPrimary)
    {
      var visited: set<CameraId> := {};
      var queue := SortedCameras(g, |g|);
      ghost var order := queue;
      primaryCameras, secondaryFromPrimary := [], map[];
      ghost var done := 0;
      while queue != []
        invariant done <= |order| && queue == order[done..]
        invariant GreedySoFar(g, order, done, primaryCameras, secondaryFromPrimary, visited)
        decreases |queue|
      {
        var camId := queue[0];
        queue := queue[1..];
        if camId !in visited {
          GreedyTakes(g, order, done, primaryCameras, secondaryFromPrimary, visited);
          primaryCameras := primaryCameras + [camId];
          visited := visited + {camId};
          secondaryFromPrimary := secondaryFromPrimary[camId := Neighbours(g, camId)];
          visited := visited + SetOf(Neighbours(g, camId));
        }
        done := done + 1;
      }
      assert Greedy(g, primaryCameras) by {
        forall c: CameraId | c < |g| ensures c in primaryCameras <==> !Covered(g, primaryCameras, c) {
          assert c in order;
        }
      }
    }

    method SetPerformanceMode(g: Graph) returns (ghost base: Lists, ghost best: map<CameraId, CameraId>)
      requires EdgesBack(g)
      modifies `primaryCameras, `secondaryFromPrimary
      ensures IsModerate(g, primaryCameras, base)
      ensures IsAssignment(g, base, best, secondaryFromPrimary)
    {
      SetModerateMode(g);
      base := secondaryFromPrimary;
      ghost var primaries := primaryCameras;
      var primaryFromSecondary := Invert(secondaryFromPrimary);
      best := map[];
      var todo := primaryFromSecondary.Keys;
      NothingAssignedYet(base);
      while todo != {}
        invariant todo <= primaryFromSecondary.Keys && primaryCameras == primaries
        invariant forall s :: s in best <==> s in primaryFromSecondary && s !in todo
        invariant forall s :: s in best ==> IsBest(g, base, s, best[s])
        invariant secondaryFromPrimary == Assigned(base, best)
        decreases todo
      {
        var s :| s in todo;
        var prims := primaryFromSecondary[s];
        ListersAreNeighbours(g, primaryCameras, base, s, prims);
        var winner := BestPrimary(g, s, prims);
        RemoveFromOthers(base, best, s, winner, prims);
        best := best[s := winner];
        todo := todo - {s};
      }
    }

    /** The inner loop of the reassignment: every listing primary but the winner drops s. */
    method RemoveFromOthers(ghost base: Lists, ghost best: map<CameraId, CameraId>, s: CameraId, winner: CameraId,
                            prims: seq<CameraId>)
      requires s !in best && secondaryFromPrimary == Assigned(base, best)
      requires forall p :: p in prims <==> Lists?(base, p, s)
      modifies `secondaryFromPrimary
      ensures secondaryFromPrimary == Assigned(base, best[s := winner])
    {
      ghost var before := secondaryFromPrimary;
      for k := 0 to |prims|
        invariant secondaryFromPrimary == Dropped(before, s, winner, prims[..k])
      {
        var camId := prims[k];
        assert camId in prims && Lists?(base, camId, s);
        DroppedNext(before, s, winner, prims, k);
        if camId != winner {
          secondaryFromPrimary := secondaryFromPrimary[camId := Remove(secondaryFromPrimary[camId], s)];
        }
      }
      assert prims[..|prims|] == prims;
      DroppedIsAssigned(base, best, s, winner, prims);
    }

    method SetManualMode(g: Graph, setup: seq<seq<CameraId>>) returns (status: Status)
      modifies `primaryCameras, `secondaryFromPrimary
      ensures status == WrongSetupSize <==> |setup| != |g|
      ensures status == Ok <==> ManualAccepted(g, setup)
      ensures status == Ok ==> primaryCameras == ManualPrimaries(setup, |setup|)
      ensures status == Ok ==> secondaryFromPrimary == ManualLists(setup, |setup|)
    {
      if |setup| != |g| {
        return WrongSetupSize;
      }
      primaryCameras, secondaryFromPrimary := [], map[];
      for camId := 0 to |setup|
        invariant forall c: CameraId :: c < camId ==> ManualRowOk(setup, c)
        invariant primaryCameras == ManualPrimaries(setup, camId)
        invariant secondaryFromPrimary == ManualLists(setup, camId)
      {
        if setup[camId] != [] {
          for k := 0 to |setup[camId]|
            invariant forall l :: 0 <= l < k ==> setup[camId][l] != camId && setup[camId][l] < |setup|
            invariant primaryCameras == ManualPrimaries(setup, camId)
            invariant secondaryFromPrimary == ManualLists(setup, camId)
          {
            if setup[camId][k] == camId || setup[camId][k] >= |setup| {
              assert !ManualRowOk(setup, camId);
              return WrongSecondaryIndex;
            }
          }
          primaryCameras := primaryCameras + [camId];
          secondaryFromPrimary := secondaryFromPrimary[camId := setup[camId]];
        }
      }
      return Ok;
    }

    method SelectMode(g: Graph, settings: Settings) returns (status: Status)
      requires settings.mode == Performance ==> EdgesBack(g)
      modifies `primaryCameras, `secondaryFromPrimary
      ensures status == Ok <==> settings.mode == Manual ==> ManualAccepted(g, settings.manualSetup)
      ensures status == Ok ==> ModeResult(g, settings, primaryCameras, secondaryFromPrimary)
    {
      status := Ok;
      match settings.mode
      case Precision =>
        SetPrecisionMode(g);
      case Performance =>
        ghost var base, best := SetPerformanceMode(g);
      case Manual =>
        status := SetManualMode(g, settings.manualSetup);
      case Moderate =>
        SetModerateMode(g);
    }

    /** Secondary edges that land on a depth camera go, unless they are allowed or there is none. */
    method StripDepthCameras(settings: Settings)
      modifies `secondaryFromPrimary
      ensures secondaryFromPrimary == Stripped(old(secondaryFromPrimary), StripSet(settings))
    {
      ghost var before, bad := secondaryFromPrimary, StripSet(settings);
      NothingStripped(before);
      assert settings.depthIds == [] ==> SetOf(settings.depthIds) == {};
      if !settings.allowStereoTrackForDepth && settings.depthIds != [] {
        var todo := secondaryFromPrimary.Keys;
        while todo != {}
          invariant todo <= before.Keys
          invariant secondaryFromPrimary == PartlyStripped(before, bad, todo)
          decreases todo
        {
          var p :| p in todo;
          StripNext(before, bad, todo, p);
          var list := StripList(secondaryFromPrimary[p], settings.depthIds);
          secondaryFromPrimary := secondaryFromPrimary[p := list];
          todo := todo - {p};
        }
      }
    }

    method PruneIdlePrimaries()
      modifies `primaryCameras
      ensures primaryCameras == Survivors(old(primaryCameras), secondaryFromPrimary)
    {
      var prims := primaryCameras;
      ghost var bad := Idle(prims, secondaryFromPrimary);
      var camsToRemove: seq<CameraId> := [];
      for k := 0 to |prims|
        invariant primaryCameras == prims && camsToRemove == Among(prims[..k], bad)
      {
        AmongNext(prims, bad, k);
        var camId := prims[k];
        if camId !in secondaryFromPrimary || secondaryFromPrimary[camId] == [] {
          camsToRemove := camsToRemove + [camId];
        }
      }
      assert prims[..|prims|] == prims;
      EraseAmong(prims, bad);
      primaryCameras := EraseInTurn(prims, camsToRemove);
    }

    /** Depth cameras that are not primary yet become primaries with an empty list. The assertion of the
        source, that a depth camera already primary has secondaries, is reported as assertHeld. */
    method AddDepthCameras(ids: seq<CameraId>) returns (assertHeld: bool)
      requires forall p :: p in primaryCameras ==> p in secondaryFromPrimary && secondaryFromPrimary[p] != []
      modifies `primaryCameras, `secondaryFromPrimary
      ensures primaryCameras == old(primaryCameras) + NewDepthIds(old(primaryCameras), ids)
      ensures secondaryFromPrimary ==
              WithDepth(old(secondaryFromPrimary), NewDepthIds(old(primaryCameras), ids))
      ensures assertHeld <==> NoFreshRepeat(old(primaryCameras), ids, |ids|)
    {
      assertHeld := true;
      ghost var survivors, lists := primaryCameras, secondaryFromPrimary;
      for k := 0 to |ids|
        invariant primaryCameras == survivors + NewDepthIds(survivors, ids[..k])
        invariant secondaryFromPrimary == WithDepth(lists, NewDepthIds(survivors, ids[..k]))
        invariant assertHeld <==> NoFreshRepeat(survivors, ids, k)
      {
        var id := ids[k];
        AddDepthStep(survivors, lists, ids, k);
        AddDepthLookup(survivors, lists, ids, k);
        if id in primaryCameras {
          assertHeld := assertHeld && secondaryFromPrimary[id] != [];
        } else {
          primaryCameras := primaryCameras + [id];
          secondaryFromPrimary := secondaryFromPrimary[id := []];
        }
      }
      assert ids[..|ids|] == ids;
    }

    /** The constructor. A rejected manual setup leaves no object. */
    method Initialize(g: Graph, settings: Settings)
      returns (status: Status, assertHeld: bool, ghost primaries0: seq<CameraId>, ghost lists0: Lists)
      requires settings.mode == Performance ==> EdgesBack(g)
      modifies this
      ensures status == Ok <==> settings.mode == Manual ==> ManualAccepted(g, settings.manualSetup)
      ensures status == Ok ==> ModeResult(g, settings, primaries0, lists0)
      ensures status == Ok ==> Finished(settings, primaries0, lists0, primaryCameras, secondaryFromPrimary)
      ensures status == Ok ==> Established(settings, primaryCameras, secondaryFromPrimary)
      ensures status == Ok ==> (primaryCameras != [] <==> settings.depthIds != [] || HasPair(g, settings))
      ensures status == Ok ==> (assertHeld <==> DuplicatesHavePartners(settings.depthIds, secondaryFromPrimary))
      ensures status == Ok ==> (assertHeld <==> RepeatedKeep(settings, lists0))
      ensures status == Ok && settings.mode != Performance ==> (assertHeld <==> RepeatedKeepSecondary(g, settings))
      ensures status == Ok ==> forall c: CameraId ::
                c in primaryCameras <==> c in settings.depthIds || ListsOutside(lists0, StripSet(settings), c)
      ensures status == Ok && settings.mode != Performance ==> forall c: CameraId ::
                c in primaryCameras <==> c in settings.depthIds || KeepsSecondary(g, settings, c)
      ensures status == Ok && settings.mode == Performance ==> (RepeatedSurelyKeep(g, settings) ==> assertHeld)
      ensures status == Ok && settings.mode == Performance ==> forall c: CameraId ::
                && (c in settings.depthIds || SurelyKeeps(g, settings, c) ==> c in primaryCameras)
                && (c in primaryCameras ==> c in settings.depthIds || MayKeep(g, settings, c))
      ensures status == Ok && Symmetric(g) && Loopless(g) ==>
                (SomeSecondary(secondaryFromPrimary) <==> PairRemains(g, settings))
      ensures status == Ok ==> forall p: CameraId, v: CameraId ::
                ListedByGraph(g, settings, p, v, Lists?(secondaryFromPrimary, p, v))
      ensures status == Ok && settings.mode == Performance ==> SharedOut(g, settings, secondaryFromPrimary)
    {
      depthIds := settings.depthIds;
      assertHeld := true;
      status := SelectMode(g, settings);
      primaries0, lists0 := primaryCameras, secondaryFromPrimary;
      if status != Ok {
        return;
      }
      EveryModeHasFacts(g, settings, primaries0, lists0);
      StripDepthCameras(settings);
      PruneIdlePrimaries();
      ghost var stripped := secondaryFromPrimary;
      SurvivorsList(primaries0, stripped);
      assertHeld := AddDepthCameras(settings.depthIds);
      RepeatsIff(primaries0, stripped, settings.depthIds);
      FinishedIsEstablished(g, settings, primaries0, lists0, primaryCameras, secondaryFromPrimary);
      ValidIff(g, settings, primaries0, lists0, primaryCameras, secondaryFromPrimary);
      if Symmetric(g) && Loopless(g) {
        PairRemainsIff(g, settings, primaries0, lists0, primaryCameras, secondaryFromPrimary);
      }
      ResultFromLists(g, settings, primaries0, lists0, primaryCameras, secondaryFromPrimary);
      ListsInTheEnd(g, settings, primaries0, lists0, primaryCameras, secondaryFromPrimary);
      if settings.mode != Performance {
        ListsFromSettings(g, settings, primaries0, lists0);
      } else {
        ListsFromRatios(g, settings, primaries0, lists0);
      }
    }

    /** is_valid: primaries exist and each has a map entry. */
    method IsValid() returns (valid: bool)
      ensures valid <==> primaryCameras != [] && forall p :: p in primaryCameras ==> p in secondaryFromPrimary
    {
      if primaryCameras == [] {
        return false;
      }
      for k := 0 to |primaryCameras|
        invariant forall l :: 0 <= l < k ==> primaryCameras[l] in secondaryFromPrimary
      {
        if primaryCameras[k] !in secondaryFromPrimary {
          return false;
        }
      }
      return true;
    }
  }
}
