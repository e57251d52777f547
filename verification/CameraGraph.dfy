/** The camera graph behind primary/secondary selection: nodes, adjacency, the order in which
    moderate mode visits cameras, and what its greedy choice amounts to
    (libs/camera/frustum_intersection_graph.cpp).

    The overlap test that turns camera geometry into a ratio is an arbitrary function here. */
module CameraGraph {

  type CameraId = nat

  datatype ConnectedCam = ConnectedCam(id: CameraId, ratio: real)
  datatype CameraGraphNode = CameraGraphNode(pairs: seq<ConnectedCam>, degree: nat)
  type Graph = seq<CameraGraphNode>

  function Ids(pairs: seq<ConnectedCam>): seq<CameraId> {
    seq(|pairs|, k requires 0 <= k < |pairs| => pairs[k].id)
  }

  function Neighbours(g: Graph, c: CameraId): seq<CameraId>
    requires c < |g|
  {
    Ids(g[c].pairs)
  }

  predicate Adjacent(g: Graph, u: CameraId, v: CameraId) {
    u < |g| && v in Neighbours(g, u)
  }

  ghost predicate Symmetric(g: Graph) {
    forall u: CameraId, v: CameraId :: Adjacent(g, u, v) ==> Adjacent(g, v, u)
  }

  ghost predicate Loopless(g: Graph) {
    forall u: CameraId :: !Adjacent(g, u, u)
  }

  ghost predicate HasEdge(g: Graph) {
    exists u: CameraId, v: CameraId :: Adjacent(g, u, v)
  }

  ghost predicate Distinct(s: seq<CameraId>) {
    forall i, j :: 0 <= i < j < |s| ==> s[i] != s[j]
  }

  // ----- building the graph from overlap ratios -----

  const RATIO_THRESHOLD := 0.5

  /** Do cameras c and v overlap enough? Only the pair with the smaller index first is ever evaluated. */
  predicate Overlap(ratio: (nat, nat) -> real, c: nat, v: nat) {
    c != v && PairRatio(ratio, c, v) > RATIO_THRESHOLD
  }

  function PairRatio(ratio: (nat, nat) -> real, c: nat, v: nat): real {
    if c < v then ratio(c, v) else ratio(v, c)
  }

  /** Partners of c among the first k cameras, in increasing order. */
  function Partners(ratio: (nat, nat) -> real, c: nat, k: nat): seq<ConnectedCam> {
    if k == 0 then []
    else Partners(ratio, c, k - 1) +
         if Overlap(ratio, c, k - 1) then [ConnectedCam(k - 1, PairRatio(ratio, c, k - 1))] else []
  }

  function NodeWith(pairs: seq<ConnectedCam>): CameraGraphNode {
    CameraGraphNode(pairs, |pairs|)
  }

  function Connect(node: CameraGraphNode, id: CameraId, ratio: real): CameraGraphNode {
    CameraGraphNode(node.pairs + [ConnectedCam(id, ratio)], node.degree + 1)
  }

  /** Node c when row i of the pair loop has reached column j. */
  ghost function NodeDuring(ratio: (nat, nat) -> real, n: nat, i: nat, j: nat, c: nat): CameraGraphNode {
    NodeWith(Partners(ratio, c, if c < i then n else if c == i then j else if c < j then i + 1 else i))
  }

  /** Every camera's edges are exactly its partners. */
  ghost predicate BuiltFrom(g: Graph, ratio: (nat, nat) -> real) {
    forall c: CameraId :: c < |g| ==> g[c] == NodeWith(Partners(ratio, c, |g|))
  }

  /** What the edges of a built graph are, said of the overlap ratios themselves: cameras u < v are partners
      exactly if their ratio is above one half, and then both edge records hold that ratio. */
  ghost predicate EdgesAreOverlaps(g: Graph, ratio: (nat, nat) -> real) {
    && (forall u: CameraId, v: CameraId :: u < v < |g| ==> (Adjacent(g, u, v) <==> ratio(u, v) > 0.5))
    && (forall u: CameraId, v: CameraId :: u < v < |g| ==> (Adjacent(g, v, u) <==> ratio(u, v) > 0.5))
    && (forall u: CameraId, v: CameraId :: Adjacent(g, u, v) ==> u != v && u < |g| && v < |g|)
    && (forall u: CameraId, v: CameraId :: u < v < |g| && Adjacent(g, u, v) ==> Ratio(g, u, v) == ratio(u, v))
    && (forall u: CameraId, v: CameraId :: u < v < |g| && Adjacent(g, v, u) ==> Ratio(g, v, u) == ratio(u, v))
  }

  lemma {:induction false} BuiltEdges(g: Graph, ratio: (nat, nat) -> real)
    requires BuiltFrom(g, ratio)
    ensures EdgesAreOverlaps(g, ratio)
  {
    forall u: CameraId, v: CameraId
      ensures Adjacent(g, u, v) <==> u < |g| && v < |g| && Overlap(ratio, u, v)
      ensures Adjacent(g, u, v) ==> Ratio(g, u, v) == PairRatio(ratio, u, v)
    {
      PartnersMeaning(ratio, u, |g|);
      if Adjacent(g, u, v) {
        var k := FirstIndex(g[u].pairs, v);
      }
    }
  }

  method BuildCameraGraph(numCameras: nat, ratio: (nat, nat) -> real) returns (g: Graph)
    ensures |g| == numCameras && BuiltFrom(g, ratio)
    ensures EdgesAreOverlaps(g, ratio)
    ensures forall c: CameraId :: c < |g| ==> g[c].degree == |Neighbours(g, c)| && Distinct(Neighbours(g, c))
  {
    g := seq(numCameras, _ => CameraGraphNode([], 0));
    for i := 0 to numCameras
      invariant |g| == numCameras
      invariant forall c: CameraId :: c < numCameras ==> g[c] == NodeWith(Partners(ratio, c, if c < i then numCameras else i))
    {
      assert Partners(ratio, i, i + 1) == Partners(ratio, i, i);
      for j := i + 1 to numCameras
        invariant |g| == numCameras
        invariant forall c: CameraId :: c < numCameras ==> g[c] == NodeDuring(ratio, numCameras, i, j, c)
      {
        if ratio(i, j) > RATIO_THRESHOLD {
          g := g[i := Connect(g[i], j, ratio(i, j))];
          g := g[j := Connect(g[j], i, ratio(i, j))];
        }
      }
    }
    BuiltEdges(g, ratio);
    BuiltGraphIsSound(g, ratio);
  }

  lemma {:induction false} PartnersMeaning(ratio: (nat, nat) -> real, c: nat, k: nat)
    ensures var p := Partners(ratio, c, k);
            && (forall v: nat :: v in Ids(p) <==> v < k && Overlap(ratio, c, v))
            && (forall a :: 0 <= a < |p| ==> p[a].ratio == PairRatio(ratio, c, p[a].id))
            && (forall a, b :: 0 <= a < b < |p| ==> p[a].id < p[b].id)
  {
    if k > 0 {
      PartnersMeaning(ratio, c, k - 1);
      var p, q := Partners(ratio, c, k), Partners(ratio, c, k - 1);
      assert forall a :: 0 <= a < |q| ==> Ids(q)[a] in Ids(q);
      if Overlap(ratio, c, k - 1) {
        assert Ids(p) == Ids(q) + [k - 1];
        assert forall a :: 0 <= a < |q| ==> p[a].id == Ids(q)[a] < k - 1;
      } else {
        assert p == q;
      }
    }
  }

  /** The built graph is symmetric without loops, has one edge record per neighbour and direction with
      the same ratio on both sides, and its degree field is the number of neighbours. */
  lemma {:induction false} BuiltGraphIsSound(g: Graph, ratio: (nat, nat) -> real)
    requires BuiltFrom(g, ratio)
    ensures Symmetric(g) && Loopless(g)
    ensures Counted(g)
    ensures forall u: CameraId, v: CameraId :: Adjacent(g, u, v) ==> Ratio(g, u, v) == Ratio(g, v, u) > RATIO_THRESHOLD
  {
    forall u: CameraId, v: CameraId | Adjacent(g, u, v)
      ensures u != v && Adjacent(g, v, u) && Ratio(g, u, v) == Ratio(g, v, u) > RATIO_THRESHOLD
    {
      PartnersMeaning(ratio, u, |g|);
      PartnersMeaning(ratio, v, |g|);
      var k := FirstIndex(g[u].pairs, v);
      var l := FirstIndex(g[v].pairs, u);
    }
    forall c: CameraId | c < |g| ensures Distinct(Neighbours(g, c)) {
      PartnersMeaning(ratio, c, |g|);
    }
  }

  /** std::find_if over the edge list: the first record of a neighbour. */
  function FirstIndex(pairs: seq<ConnectedCam>, v: CameraId): (k: nat)
    requires v in Ids(pairs)
    ensures k < |pairs| && pairs[k].id == v
    ensures forall l :: 0 <= l < k ==> pairs[l].id != v
  {
    if pairs[0].id == v then 0
    else
      assert Ids(pairs) == [pairs[0].id] + Ids(pairs[1..]);
      1 + FirstIndex(pairs[1..], v)
  }

  function Ratio(g: Graph, u: CameraId, v: CameraId): real
    requires Adjacent(g, u, v)
  {
    g[u].pairs[FirstIndex(g[u].pairs, v)].ratio
  }

  // ----- the visiting order -----

  /** The comparator of the sort: ascending degree, ties by id. */
  predicate Precedes(g: Graph, a: CameraId, b: CameraId)
    requires a < |g| && b < |g|
  {
    g[a].degree < g[b].degree || (g[a].degree == g[b].degree && a < b)
  }

  ghost predicate InGraph(g: Graph, s: seq<CameraId>) {
    forall k :: 0 <= k < |s| ==> s[k] < |g|
  }

  ghost predicate Ascending(g: Graph, s: seq<CameraId>)
    requires InGraph(g, s)
  {
    forall i, j :: 0 <= i < j < |s| ==> Precedes(g, s[i], s[j])
  }

  function Insert(g: Graph, s: seq<CameraId>, c: CameraId): (r: seq<CameraId>)
    requires InGraph(g, s) && Ascending(g, s) && c < |g| && c !in s
    ensures InGraph(g, r) && Ascending(g, r)
    ensures forall x: CameraId :: x in r <==> x == c || x in s
  {
    if s == [] || Precedes(g, c, s[0]) then [c] + s
    else
      var rest := Insert(g, s[1..], c);
      assert forall k :: 0 <= k < |rest| ==> rest[k] in rest;
      [s[0]] + rest
  }

  /** The first n cameras in visiting order; std::sort is modelled by insertion. */
  function SortedCameras(g: Graph, n: nat): (r: seq<CameraId>)
    requires n <= |g|
    ensures InGraph(g, r) && Ascending(g, r)
    ensures forall x: CameraId :: x in r <==> x < n
  {
    if n == 0 then [] else Insert(g, SortedCameras(g, n - 1), n - 1)
  }

  // ----- the greedy choice of moderate mode -----

  /** A camera is primary exactly when no camera before it in visiting order is a primary that lists
      it. Primaries appear in visiting order and own their whole neighbour list. */
  ghost predicate IsModerate(g: Graph, primaries: seq<CameraId>, secondaries: map<CameraId, seq<CameraId>>) {
    && InGraph(g, primaries) && Ascending(g, primaries) && Greedy(g, primaries)
    && (forall p: CameraId :: p in secondaries <==> p in primaries)
    && (forall p: CameraId :: p in secondaries ==> secondaries[p] == Neighbours(g, p))
  }

  ghost predicate Greedy(g: Graph, primaries: seq<CameraId>)
    requires InGraph(g, primaries)
  {
    forall c: CameraId {:trigger Covered(g, primaries, c)} ::
      c < |g| ==> (c in primaries <==> !Covered(g, primaries, c))
  }

  ghost predicate Covered(g: Graph, primaries: seq<CameraId>, c: CameraId)
    requires InGraph(g, primaries) && c < |g|
  {
    exists d: CameraId :: d in primaries && d < |g| && Precedes(g, d, c) && Adjacent(g, d, c)
  }

  lemma {:induction false} PrimariesNotAdjacent(g: Graph, primaries: seq<CameraId>, secondaries: map<CameraId, seq<CameraId>>,
                             p: CameraId, q: CameraId)
    requires Symmetric(g) && Loopless(g) && IsModerate(g, primaries, secondaries)
    requires p in primaries && q in primaries
    ensures !Adjacent(g, p, q)
  {
    if p != q {
      if Precedes(g, p, q) {
        assert !Covered(g, primaries, q);
      } else {
        assert !Covered(g, primaries, p);
        assert !Adjacent(g, q, p);
      }
    }
  }

  lemma {:induction false} SecondaryIsNotPrimary(g: Graph, primaries: seq<CameraId>, secondaries: map<CameraId, seq<CameraId>>,
                              p: CameraId, s: CameraId)
    requires Symmetric(g) && Loopless(g) && IsModerate(g, primaries, secondaries)
    requires p in secondaries && s in secondaries[p]
    ensures s < |g| && s !in primaries
  {
    assert Adjacent(g, p, s) && Adjacent(g, s, p);
    if s in primaries {
      PrimariesNotAdjacent(g, primaries, secondaries, p, s);
    }
  }

  /** On a symmetric loopless graph the primaries are a maximal independent set, each primary's
      secondaries are exactly its neighbours, and no secondary is a primary. */
  lemma {:induction false} ModerateIsMaximalIndependent(g: Graph, primaries: seq<CameraId>, secondaries: map<CameraId, seq<CameraId>>)
    requires Symmetric(g) && Loopless(g) && IsModerate(g, primaries, secondaries)
    ensures Distinct(primaries)
    ensures forall p: CameraId, q: CameraId :: p in primaries && q in primaries ==> !Adjacent(g, p, q)
    ensures forall c: CameraId :: c < |g| && c !in primaries ==> exists p: CameraId :: p in primaries && Adjacent(g, p, c)
    ensures forall p: CameraId, k: nat :: p in secondaries && k < |secondaries[p]| ==>
              secondaries[p][k] < |g| && secondaries[p][k] !in primaries
  {
    forall p: CameraId, q: CameraId | p in primaries && q in primaries ensures !Adjacent(g, p, q) {
      PrimariesNotAdjacent(g, primaries, secondaries, p, q);
    }
    forall c: CameraId | c < |g| && c !in primaries ensures exists p: CameraId :: p in primaries && Adjacent(g, p, c) {
      assert Covered(g, primaries, c);
    }
    forall p: CameraId, k: nat | p in secondaries && k < |secondaries[p]|
      ensures secondaries[p][k] < |g| && secondaries[p][k] !in primaries
    {
      SecondaryIsNotPrimary(g, primaries, secondaries, p, secondaries[p][k]);
    }
  }

  /** What the code guarantees instead of "primaries have the highest degree": every other camera has
      an adjacent primary whose degree is no larger than its own. */
  lemma {:induction false} ModerateCoversFromBelow(g: Graph, primaries: seq<CameraId>, secondaries: map<CameraId, seq<CameraId>>,
                                c: CameraId) returns (p: CameraId)
    requires IsModerate(g, primaries, secondaries) && c < |g| && c !in primaries
    ensures p in primaries && p < |g| && Adjacent(g, p, c) && g[p].degree <= g[c].degree
  {
    assert Covered(g, primaries, c);
    p :| p in primaries && p < |g| && Precedes(g, p, c) && Adjacent(g, p, c);
  }

  /** Three cameras in a row: the middle one has the highest degree and is secondary, because the sort
      is ascending. The comments on the mode and on the comparator promise the opposite. */
  lemma {:induction false} HighestDegreeMayBeSecondary()
    ensures var g := [NodeWith([ConnectedCam(1, 0.6)]),
                      NodeWith([ConnectedCam(0, 0.6), ConnectedCam(2, 0.6)]),
                      NodeWith([ConnectedCam(1, 0.6)])];
            && g[1].degree > g[0].degree && g[1].degree > g[2].degree
            && IsModerate(g, [0, 2], map[0 := [1], 2 := [1]])
  {
    var g := [NodeWith([ConnectedCam(1, 0.6)]),
              NodeWith([ConnectedCam(0, 0.6), ConnectedCam(2, 0.6)]),
              NodeWith([ConnectedCam(1, 0.6)])];
    assert Neighbours(g, 0) == [1] && Neighbours(g, 2) == [1];
    assert Precedes(g, 0, 1) && Adjacent(g, 0, 1) && 0 in [0, 2];
    assert Covered(g, [0, 2], 1);
    assert !Covered(g, [0, 2], 0) && !Covered(g, [0, 2], 2);
  }

  /** The promise of those comments, that every primary has the largest degree of the graph, is kept
      exactly when all cameras have the same degree: the camera visited first is always primary. */
  lemma {:induction false} HighestDegreeIff(g: Graph, primaries: seq<CameraId>, secondaries: map<CameraId, seq<CameraId>>)
    requires IsModerate(g, primaries, secondaries) && |g| > 0
    ensures (forall p: CameraId, c: CameraId :: p in primaries && c < |g| ==> g[c].degree <= g[p].degree) <==>
            (forall a: CameraId, b: CameraId :: a < |g| && b < |g| ==> g[a].degree == g[b].degree)
  {
    var order := SortedCameras(g, |g|);
    assert 0 in order;
    var first := order[0];
    forall c: CameraId | c < |g| ensures !Precedes(g, c, first) {
      assert c in order;
    }
    assert !Covered(g, primaries, first);
    if forall p: CameraId, c: CameraId :: p in primaries && c < |g| ==> g[c].degree <= g[p].degree {
      forall c: CameraId | c < |g| ensures g[c].degree == g[first].degree {
        assert !Precedes(g, c, first);
      }
    }
  }

  /** The greedy choice asked camera by camera: one is chosen unless an earlier chosen camera lists it. */
  predicate Chosen(g: Graph, c: CameraId)
    requires c < |g|
    decreases g[c].degree, c
  {
    forall d: CameraId :: d < |g| && Precedes(g, d, c) && Adjacent(g, d, c) ==> !Chosen(g, d)
  }

  lemma {:induction false} PrimaryIffChosen(g: Graph, primaries: seq<CameraId>, secondaries: map<CameraId, seq<CameraId>>,
                         c: CameraId)
    requires IsModerate(g, primaries, secondaries) && c < |g|
    ensures c in primaries <==> Chosen(g, c)
    decreases g[c].degree, c
  {
    forall d: CameraId | d < |g| && Precedes(g, d, c) && Adjacent(g, d, c)
      ensures d in primaries <==> Chosen(g, d)
    {
      PrimaryIffChosen(g, primaries, secondaries, d);
    }
    assert c in primaries <==> !Covered(g, primaries, c);
  }

  lemma {:induction false} ChosenNotAdjacent(g: Graph, u: CameraId, v: CameraId)
    requires Symmetric(g) && Loopless(g) && Adjacent(g, u, v) && v < |g|
    ensures !Chosen(g, u) || !Chosen(g, v)
  {
    assert Adjacent(g, v, u);
    assert u != v;
    if !Precedes(g, u, v) {
      assert Precedes(g, v, u);
    }
  }

  // ----- what is left of the choice when one camera may not be anyone's secondary -----

  /** Edge records and the degree field agree, as in every graph that is built. */
  ghost predicate Counted(g: Graph) {
    forall c: CameraId :: c < |g| ==> g[c].degree == |g[c].pairs| && Distinct(Neighbours(g, c))
  }

  ghost predicate EdgeAvoids(g: Graph, d: CameraId) {
    exists u: CameraId, v: CameraId :: u != d && v != d && Adjacent(g, u, v)
  }

  ghost predicate LonePartnerAbove(g: Graph, d: CameraId) {
    exists v: CameraId :: d < v && d < |g| && Neighbours(g, d) == [v]
  }

  ghost predicate Unchosen(g: Graph, bad: set<CameraId>, v: CameraId) {
    v < |g| && v !in bad && !Chosen(g, v)
  }

  lemma {:induction false} OnlyNeighbour(g: Graph, v: CameraId, d: CameraId)
    requires Counted(g) && Adjacent(g, v, d) && forall u: CameraId :: Adjacent(g, v, u) ==> u == d
    ensures Neighbours(g, v) == [d] && g[v].degree == 1
  {
    var n := Neighbours(g, v);
    assert forall k :: 0 <= k < |n| ==> Adjacent(g, v, n[k]);
    assert n[0] == n[|n| - 1];
  }

  /** Some camera other than d is left unchosen exactly when an edge avoids d, or d's only partner has
      the larger id. */
  lemma {:induction false} UnchosenBesidesIff(g: Graph, d: CameraId)
    requires Symmetric(g) && Loopless(g) && Counted(g) && d < |g|
    ensures (exists v: CameraId :: Unchosen(g, {d}, v)) <==> EdgeAvoids(g, d) || LonePartnerAbove(g, d)
  {
    if v: CameraId :| Unchosen(g, {d}, v) {
      UnchosenHasPair(g, d, v);
    }
    if EdgeAvoids(g, d) {
      var u: CameraId, v: CameraId :| u != d && v != d && Adjacent(g, u, v);
      assert Adjacent(g, v, u);
      ChosenNotAdjacent(g, u, v);
      assert Unchosen(g, {d}, u) || Unchosen(g, {d}, v);
    } else if LonePartnerAbove(g, d) {
      var v: CameraId :| d < v && Neighbours(g, d) == [v];
      LonePartnerUnchosen(g, d, v);
      assert Unchosen(g, {d}, v);
    }
  }

  lemma {:induction false} UnchosenHasPair(g: Graph, d: CameraId, v: CameraId)
    requires Symmetric(g) && Loopless(g) && Counted(g) && d < |g|
    requires v < |g| && v != d && !Chosen(g, v)
    ensures EdgeAvoids(g, d) || LonePartnerAbove(g, d)
  {
    var u: CameraId :| u < |g| && Precedes(g, u, v) && Adjacent(g, u, v) && Chosen(g, u);
    if !EdgeAvoids(g, d) {
      assert u == d && Adjacent(g, v, d);
      OnlyNeighbour(g, v, d);
      assert |Neighbours(g, d)| == 1;
      assert Neighbours(g, d) == [v];
    }
  }

  lemma {:induction false} LonePartnerUnchosen(g: Graph, d: CameraId, v: CameraId)
    requires Symmetric(g) && Loopless(g) && Counted(g) && d < |g| && !EdgeAvoids(g, d)
    requires d < v && Neighbours(g, d) == [v]
    ensures v < |g| && !Chosen(g, v)
  {
    assert Adjacent(g, d, v);
    assert Adjacent(g, v, d);
    OnlyNeighbour(g, v, d);
    assert Precedes(g, d, v);
    assert forall u: CameraId :: Adjacent(g, u, d) ==> Adjacent(g, d, u);
    assert Chosen(g, d);
  }

  /** The greedy choice is the only one: graph and order leave no freedom. */
  lemma {:induction false} ModerateIsUnique(g: Graph, p1: seq<CameraId>, s1: map<CameraId, seq<CameraId>>,
                         p2: seq<CameraId>, s2: map<CameraId, seq<CameraId>>)
    requires IsModerate(g, p1, s1) && IsModerate(g, p2, s2)
    ensures p1 == p2 && s1 == s2
  {
    var order := SortedCameras(g, |g|);
    AgreeOnOrder(g, p1, p2, order, |order|);
    assert forall c: CameraId :: c in p1 <==> c in p2 by {
      forall c: CameraId ensures c in p1 <==> c in p2 {
        if c < |g| {
          assert c in order;
        }
      }
    }
    SameMembersSameOrder(g, p1, p2);
  }

  lemma {:induction false} AgreeOnOrder(g: Graph, p1: seq<CameraId>, p2: seq<CameraId>, order: seq<CameraId>, n: nat)
    requires InGraph(g, p1) && InGraph(g, p2) && InGraph(g, order) && Ascending(g, order) && n <= |order|
    requires forall x: CameraId :: x in order <==> x < |g|
    requires Greedy(g, p1) && Greedy(g, p2)
    ensures forall k :: 0 <= k < n ==> (order[k] in p1 <==> order[k] in p2)
  {
    if n > 0 {
      AgreeOnOrder(g, p1, p2, order, n - 1);
      var c := order[n - 1];
      SameCover(g, p1, p2, order, n - 1);
      SameCover(g, p2, p1, order, n - 1);
    }
  }

  lemma {:induction false} SameCover(g: Graph, p1: seq<CameraId>, p2: seq<CameraId>, order: seq<CameraId>, n: nat)
    requires InGraph(g, p1) && InGraph(g, p2) && InGraph(g, order) && Ascending(g, order) && n < |order|
    requires forall x: CameraId :: x in order <==> x < |g|
    requires forall k :: 0 <= k < n ==> (order[k] in p1 <==> order[k] in p2)
    ensures Covered(g, p1, order[n]) ==> Covered(g, p2, order[n])
  {
    var c := order[n];
    if Covered(g, p1, c) {
      var d: CameraId :| d in p1 && d < |g| && Precedes(g, d, c) && Adjacent(g, d, c);
      assert d in order;
      var k :| 0 <= k < |order| && order[k] == d;
      assert k < n;
    }
  }

  lemma {:induction false} HeadIsMember(s: seq<CameraId>)
    requires s != []
    ensures s[0] in s
  {
  }

  lemma {:induction false} SameMembersSameOrder(g: Graph, a: seq<CameraId>, b: seq<CameraId>)
    requires InGraph(g, a) && InGraph(g, b) && Ascending(g, a) && Ascending(g, b)
    requires forall c: CameraId :: c in a <==> c in b
    ensures a == b
  {
    if a == [] {
      if b != [] {
        HeadIsMember(b);
        assert false;
      }
    } else {
      assert a[0] in b;
      assert b[0] in a;
      var i :| 0 <= i < |b| && b[i] == a[0];
      var j :| 0 <= j < |a| && a[j] == b[0];
      assert a[0] == b[0];
      assert a == [a[0]] + a[1..] && b == [b[0]] + b[1..];
      assert a[0] !in a[1..] && b[0] !in b[1..];
      assert forall c: CameraId :: c in a[1..] <==> c in a && c != a[0];
      assert forall c: CameraId :: c in b[1..] <==> c in b && c != b[0];
      SameMembersSameOrder(g, a[1..], b[1..]);
    }
  }
}
