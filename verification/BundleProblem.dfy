/** GPUBundleAdjustmentProblem::set and get (libs/cuda_modules/sba.cpp): upload regroups the
    observations by point with a counting sort that reuses one field of each point as count base,
    running cursor and final offset; download undoes the regrouping.

    Every buffer has a host and a device copy. A transfer is a plain copy of a prefix; the kernels
    that run in between may leave anything on the device. */
module BundleProblem {
  import opened Grouping

  datatype Vec2 = Vec2(x: real, y: real)
  datatype Vec3 = Vec3(x: real, y: real, z: real)
  datatype Mat2 = Mat2(m00: real, m01: real, m10: real, m11: real)
  datatype Transform = Transform(rows: seq<seq<real>>)

  datatype Point = Point(coords: Vec3, numObservations: int, firstObservationId: int)
  datatype Observation = Observation(xy: Vec2, info: Mat2, pointId: int, poseId: int, cameraId: int)

  /** The caller's problem. `get` overwrites its vectors in place. */
  class BundleAdjustmentProblem {
    var points: seq<Vec3>
    var observationXys: seq<Vec2>
    var observationInfos: seq<Mat2>
    var pointIds: seq<int>
    var poseIds: seq<int>
    var cameraIds: seq<int>
    var rigFromWorld: seq<Transform>

    /** What set demands: parallel observation vectors and point ids that index into points. */
    ghost predicate WellFormed()
      reads this
    {
      && |observationXys| == |observationInfos| == |pointIds| == |poseIds| == |cameraIds|
      && IdsInRange(pointIds, |points|)
    }

    function ObservationAt(j: int): Observation
      requires 0 <= j < |observationXys| && WellFormed()
      reads this
    {
      Observation(observationXys[j], observationInfos[j], pointIds[j], poseIds[j], cameraIds[j])
    }
  }

  datatype Direction = ToGpu | ToCpu

  /** A pinned host buffer with its device twin (GPUArrayPinned, libs/cuda_modules/cuda_helper.h). */
  class PinnedArray<T(0)> {
    var host: array<T>
    var device: array<T>

    ghost predicate Valid()
      reads this
    {
      host.Length == device.Length && host != device
    }

    constructor (size: nat)
      ensures Valid() && fresh(host) && fresh(device) && host.Length == size
    {
      host := new T[size];
      device := new T[size];
    }

    /** Same size: untouched. Otherwise both copies are reallocated and their contents are lost. */
    method Resize(size: nat)
      requires Valid()
      modifies this
      ensures Valid() && host.Length == size
      ensures size == old(host.Length) ==> host == old(host) && device == old(device)
      ensures size != old(host.Length) ==> fresh(host) && fresh(device)
    {
      if size != host.Length {
        host := new T[size];
        device := new T[size];
      }
    }

    /** Copies a prefix one way; a prefix longer than the buffer is refused and nothing changes. */
    method CopyTopN(direction: Direction, n: nat) returns (ok: bool)
      requires Valid()
      modifies host, device
      ensures ok <==> n <= host.Length
      ensures direction == ToGpu || !ok ==> host[..] == old(host[..])
      ensures direction == ToCpu || !ok ==> device[..] == old(device[..])
      ensures ok && direction == ToGpu ==> device[..] == host[..n] + old(device[n..])
      ensures ok && direction == ToCpu ==> host[..] == device[..n] + old(host[n..])
    {
      if n > host.Length {
        return false;
      }
      if direction == ToGpu {
        forall k | 0 <= k < n { device[k] := host[k]; }
      } else {
        forall k | 0 <= k < n { host[k] := device[k]; }
      }
      return true;
    }
  }

  // ----- the counting sort, one method per loop of set -----

  method ResetPoints(points: array<Point>, coords: seq<Vec3>)
    requires |coords| <= points.Length
    modifies points
    ensures forall i :: 0 <= i < |coords| ==> points[i].coords == coords[i] && points[i].numObservations == 0
  {
    for i := 0 to |coords|
      invariant forall k :: 0 <= k < i ==> points[k].coords == coords[k] && points[k].numObservations == 0
    {
      points[i] := points[i].(coords := coords[i], numObservations := 0);
    }
  }

  method CountObservations(points: array<Point>, m: nat, ids: seq<int>)
    requires m <= points.Length && IdsInRange(ids, m)
    requires forall i :: 0 <= i < m ==> points[i].numObservations == 0
    modifies points
    ensures forall i :: 0 <= i < m ==>
              points[i] == old(points[i]).(numObservations := |Slice(ids, i)|)
  {
    for j := 0 to |ids|
      invariant forall i :: 0 <= i < m ==>
                  points[i] == old(points[i]).(numObservations := |Occurrences(ids, i, j)|)
    {
      var i := ids[j];
      points[i] := points[i].(numObservations := points[i].numObservations + 1);
    }
  }

  method PrefixSums(points: array<Point>, m: nat, ghost ids: seq<int>)
    requires m <= points.Length
    requires forall i :: 0 <= i < m ==> points[i].numObservations == |Slice(ids, i)|
    modifies points
    ensures forall i :: 0 <= i < m ==> points[i] == old(points[i]).(firstObservationId := Start(ids, i))
  {
    var k := 0;
    for i := 0 to m
      invariant k == Start(ids, i)
      invariant forall i' :: 0 <= i' < i ==> points[i'] == old(points[i']).(firstObservationId := Start(ids, i'))
      invariant forall i' :: i <= i' < m ==> points[i'] == old(points[i'])
    {
      StartNext(ids, i);
      points[i] := points[i].(firstObservationId := k);
      k := k + points[i].numObservations;
    }
  }

  /** Cursor of point i after j observations were placed. */
  ghost function Cursor(ids: seq<int>, i: nat, j: nat): nat
    requires j <= |ids|
  {
    Start(ids, i) + |Occurrences(ids, i, j)|
  }

  /** A slot already filled for one point is never the slot about to be filled for another. */
  lemma {:induction false} CursorIsFree(ids: seq<int>, m: nat, j: nat, i: nat, k: nat)
    requires j < |ids| && IdsInRange(ids, m) && i < m && k < |Occurrences(ids, i, j)|
    ensures Start(ids, i) + k != Cursor(ids, ids[j], j)
  {
    var c: nat := ids[j];
    OccurrencesPrefix(ids, i, j, |ids|);
    OccurrencesPrefix(ids, c, j + 1, |ids|);
    SliceInGrouped(ids, i, m);
    SliceInGrouped(ids, c, m);
    if i < c {
      StartMonotone(ids, i + 1, c);
    } else if c < i {
      StartMonotone(ids, c + 1, i);
    }
  }

  lemma {:induction false} CursorInRange(ids: seq<int>, m: nat, j: nat)
    requires j < |ids| && IdsInRange(ids, m)
    ensures Cursor(ids, ids[j], j) < |ids|
  {
    OccurrencesPrefix(ids, ids[j], j + 1, |ids|);
    SliceInGrouped(ids, ids[j], m);
    GroupedIsPermutation(ids, m);
  }

  /** After j observations, slot k of slice i holds the k-th of point i's observations so far. */
  ghost predicate PlacedAt(order: seq<int>, ids: seq<int>, i: nat, j: nat, k: nat)
    requires j <= |ids| <= |order|
  {
    k < |Occurrences(ids, i, j)| ==>
      Start(ids, i) + k < |ids| && order[Start(ids, i) + k] == Occurrences(ids, i, j)[k]
  }

  ghost predicate Placed(order: seq<int>, ids: seq<int>, m: nat, j: nat)
    requires j <= |ids| <= |order|
  {
    forall i: nat, k: nat :: i < m ==> PlacedAt(order, ids, i, j, k)
  }

  lemma {:induction false} PlacedStep(before: seq<int>, after: seq<int>, ids: seq<int>, m: nat, j: nat)
    requires j < |ids| <= |before| && IdsInRange(ids, m) && Cursor(ids, ids[j], j) < |ids|
    requires after == before[Cursor(ids, ids[j], j) := j]
    requires Placed(before, ids, m, j)
    ensures Placed(after, ids, m, j + 1)
  {
    var next := j + 1;
    forall i: nat, k: nat | i < m ensures PlacedAt(after, ids, i, next, k) {
      assert PlacedAt(before, ids, i, j, k);
      if k < |Occurrences(ids, i, j)| {
        CursorIsFree(ids, m, j, i, k);
      }
    }
  }

  method Distribute(points: array<Point>, m: nat, ids: seq<int>, origin: array<int>)
    requires m <= points.Length && IdsInRange(ids, m) && |ids| <= origin.Length
    requires forall i: nat :: i < m ==> points[i].firstObservationId == Start(ids, i)
    modifies points, origin
    ensures forall i: nat :: i < m ==>
              points[i] == old(points[i]).(firstObservationId := Start(ids, i) + |Slice(ids, i)|)
    ensures Placed(origin[..], ids, m, |ids|)
  {
    for j := 0 to |ids|
      invariant forall i: nat :: i < m ==>
                  points[i] == old(points[i]).(firstObservationId := Cursor(ids, i, j))
      invariant Placed(origin[..], ids, m, j)
    {
      var i := ids[j];
      CursorInRange(ids, m, j);
      ghost var before := origin[..];
      origin[points[i].firstObservationId] := j;
      PlacedStep(before, origin[..], ids, m, j);
      points[i] := points[i].(firstObservationId := points[i].firstObservationId + 1);
    }
  }

  lemma {:induction false} PlacedIsGrouped(origin: array<int>, ids: seq<int>, m: nat)
    requires |ids| <= origin.Length && IdsInRange(ids, m) && Placed(origin[..], ids, m, |ids|)
    ensures origin[..|ids|] == Grouped(ids, m)
  {
    GroupedIsPermutation(ids, m);
    var g := Grouped(ids, m);
    forall p | 0 <= p < |ids| ensures origin[p] == g[p] {
      var i := PositionOfPoint(ids, m, p);
      var k: nat := p - Start(ids, i);
      assert PlacedAt(origin[..], ids, i, |ids|, k);
    }
  }

  function Rewound(p: Point): Point {
    p.(firstObservationId := p.firstObservationId - p.numObservations)
  }

  method RestoreOffsets(points: array<Point>, m: nat)
    requires m <= points.Length
    modifies points
    ensures forall i :: 0 <= i < m ==> points[i] == Rewound(old(points[i]))
  {
    for i := 0 to m
      invariant forall k :: 0 <= k < i ==> points[k] == Rewound(old(points[k]))
      invariant forall k :: i <= k < m ==> points[k] == old(points[k])
    {
      points[i] := points[i].(firstObservationId := points[i].firstObservationId - points[i].numObservations);
    }
  }

  /** The five loops together. The order written is the grouping, and each point ends with the length
      and the start of its own slice. */
  method CountingSort(points: array<Point>, coords: seq<Vec3>, ids: seq<int>, origin: array<int>)
    requires |coords| <= points.Length && IdsInRange(ids, |coords|) && |ids| <= origin.Length
    modifies points, origin
    ensures origin[..|ids|] == Grouped(ids, |coords|)
    ensures forall i: nat :: i < |coords| ==>
              points[i] == Point(coords[i], |Slice(ids, i)|, Start(ids, i))
  {
    ResetPoints(points, coords);
    CountObservations(points, |coords|, ids);
    PrefixSums(points, |coords|, ids);
    Distribute(points, |coords|, ids, origin);
    RestoreOffsets(points, |coords|);
    PlacedIsGrouped(origin, ids, |coords|);
  }

  method UploadPoints(points: PinnedArray<Point>, coords: seq<Vec3>, ids: seq<int>, origin: array<int>)
    requires points.Valid() && |coords| <= points.host.Length
    requires IdsInRange(ids, |coords|) && |ids| <= origin.Length
    modifies points.host, points.device, origin
    ensures origin[..|ids|] == Grouped(ids, |coords|)
    ensures PointsUploaded(points.device[..], coords, ids)
  {
    CountingSort(points.host, coords, ids, origin);
    var ok := points.CopyTopN(ToGpu, |coords|);
    assert forall i :: 0 <= i < |coords| ==> points.device[..][i] == points.host[i];
  }

  /** Each device point carries its coordinates and the length and start of its own slice. */
  ghost predicate PointsUploaded(device: seq<Point>, coords: seq<Vec3>, ids: seq<int>) {
    && |coords| <= |device|
    && forall i: nat :: i < |coords| ==> device[i] == Point(coords[i], |Slice(ids, i)|, Start(ids, i))
  }

  method UploadPoses(poses: PinnedArray<Transform>, transforms: seq<Transform>)
    requires poses.Valid() && |transforms| <= poses.host.Length
    modifies poses.host, poses.device
    ensures poses.device[..|transforms|] == transforms
  {
    for i := 0 to |transforms|
      invariant poses.host[..i] == transforms[..i]
    {
      poses.host[i] := transforms[i];
    }
    var ok := poses.CopyTopN(ToGpu, |transforms|);
    assert poses.device[..|transforms|] == poses.device[..][..|transforms|];
  }

  /** Slot jj of the device gets the observation that the order names. */
  ghost predicate ObservationsUploaded(device: seq<Observation>, order: seq<int>, problem: BundleAdjustmentProblem)
    requires problem.WellFormed()
    reads problem
  {
    && |order| <= |device|
    && forall jj :: 0 <= jj < |order| ==>
         0 <= order[jj] < |problem.observationXys| && device[jj] == problem.ObservationAt(order[jj])
  }

  method UploadObservations(observations: PinnedArray<Observation>, problem: BundleAdjustmentProblem,
                            origin: array<int>)
    requires problem.WellFormed() && observations.Valid()
    requires |problem.observationXys| <= origin.Length <= observations.host.Length
    requires IsPermutation(origin[..|problem.observationXys|])
    modifies observations.host, observations.device
    ensures ObservationsUploaded(observations.device[..], origin[..|problem.observationXys|], problem)
    ensures SlotsHold(observations.device[..], origin[..|problem.observationXys|], problem.observationXys,
                      problem.observationInfos, problem.pointIds, problem.poseIds, problem.cameraIds)
  {
    var n := |problem.observationXys|;
    ghost var order := origin[..n];
    for jj := 0 to n
      invariant ObservationsUploaded(observations.host[..], order[..jj], problem)
    {
      assert order[jj] == origin[jj];
      observations.host[jj] := problem.ObservationAt(origin[jj]);
    }
    assert order[..n] == order;
    var ok := observations.CopyTopN(ToGpu, n);
    assert forall jj :: 0 <= jj < n ==> observations.device[..][jj] == observations.host[..][jj];
    UploadedSlotsHold(observations.device[..], origin[..n], problem);
  }

  // ----- what an upload leaves on the device, field by field -----

  /** Slot jj holds every field of the observation with index order[jj]. */
  ghost predicate SlotsHold(device: seq<Observation>, order: seq<int>, xys: seq<Vec2>, infos: seq<Mat2>,
                            pointIds: seq<int>, poseIds: seq<int>, cameraIds: seq<int>)
  {
    && |order| == |xys| == |infos| == |pointIds| == |poseIds| == |cameraIds| <= |device|
    && forall jj {:trigger order[jj]} :: 0 <= jj < |order| ==>
         && 0 <= order[jj] < |order|
         && device[jj].xy == xys[order[jj]]
         && device[jj].info == infos[order[jj]]
         && device[jj].pointId == pointIds[order[jj]]
         && device[jj].poseId == poseIds[order[jj]]
         && device[jj].cameraId == cameraIds[order[jj]]
  }

  /** Point i has its coordinates, and the slots with its id are exactly the numObservations ones from
      firstObservationId on. */
  ghost predicate SliceHolds(points: seq<Point>, coords: seq<Vec3>, device: seq<Observation>, n: nat, i: nat)
    requires i < |coords| <= |points| && n <= |device|
  {
    var first, count := points[i].firstObservationId, points[i].numObservations;
    && points[i].coords == coords[i]
    && 0 <= first && 0 <= count && first + count <= n
    && forall jj :: 0 <= jj < n ==> (device[jj].pointId == i <==> first <= jj < first + count)
  }

  ghost predicate SlicesHold(points: seq<Point>, coords: seq<Vec3>, device: seq<Observation>, n: nat) {
    && |coords| <= |points| && n <= |device|
    && forall i: nat :: i < |coords| ==> SliceHolds(points, coords, device, n, i)
  }

  /** Within a slice the slots keep the order of the observations. */
  ghost predicate SlicesKeepOrder(device: seq<Observation>, order: seq<int>) {
    && |order| <= |device|
    && forall jj, kk :: 0 <= jj < kk < |order| && device[jj].pointId == device[kk].pointId ==> order[jj] < order[kk]
  }

  lemma {:induction false} UploadedSlotsHold(device: seq<Observation>, order: seq<int>, problem: BundleAdjustmentProblem)
    requires problem.WellFormed() && ObservationsUploaded(device, order, problem) && |order| == |problem.observationXys|
    ensures SlotsHold(device, order, problem.observationXys, problem.observationInfos, problem.pointIds,
                      problem.poseIds, problem.cameraIds)
  {
  }

  lemma {:induction false} PositionInSlice(ids: seq<int>, m: nat, i: nat, p: nat)
    requires i < m && p < |Grouped(ids, m)|
    ensures 0 <= Grouped(ids, m)[p] < |ids|
    ensures ids[Grouped(ids, m)[p]] == i <==> Start(ids, i) <= p < Start(ids, i + 1)
  {
    var k := PositionOfPoint(ids, m, p);
    if k < i {
      StartMonotone(ids, k + 1, i);
    } else if i < k {
      StartMonotone(ids, i + 1, k);
    }
  }

  lemma {:induction false} UploadedSliceHolds(points: seq<Point>, device: seq<Observation>, problem: BundleAdjustmentProblem,
                                              i: nat)
    requires problem.WellFormed() && PointsUploaded(points, problem.points, problem.pointIds) && i < |problem.points|
    requires ObservationsUploaded(device, Grouped(problem.pointIds, |problem.points|), problem)
    requires |Grouped(problem.pointIds, |problem.points|)| == |problem.observationXys|
    ensures SliceHolds(points, problem.points, device, |problem.observationXys|, i)
  {
    var ids, m := problem.pointIds, |problem.points|;
    var g := Grouped(ids, m);
    SliceInGrouped(ids, i, m);
    forall jj | 0 <= jj < |ids|
      ensures device[jj].pointId == i <==> Start(ids, i) <= jj < Start(ids, i) + |Slice(ids, i)|
    {
      PositionInSlice(ids, m, i, jj);
      assert device[jj] == problem.ObservationAt(g[jj]);
    }
  }

  lemma {:induction false} UploadedSlices(points: seq<Point>, device: seq<Observation>, problem: BundleAdjustmentProblem)
    requires problem.WellFormed() && PointsUploaded(points, problem.points, problem.pointIds)
    requires ObservationsUploaded(device, Grouped(problem.pointIds, |problem.points|), problem)
    ensures SlicesHold(points, problem.points, device, |problem.observationXys|)
    ensures SlicesKeepOrder(device, Grouped(problem.pointIds, |problem.points|))
  {
    var ids, m := problem.pointIds, |problem.points|;
    var g := Grouped(ids, m);
    GroupedIsPermutation(ids, m);
    forall i: nat | i < m ensures SliceHolds(points, problem.points, device, |problem.observationXys|, i) {
      UploadedSliceHolds(points, device, problem, i);
    }
    forall jj, kk | 0 <= jj < kk < |g| && device[jj].pointId == device[kk].pointId ensures g[jj] < g[kk] {
      GroupedIsStable(ids, m, jj, kk);
      assert device[jj] == problem.ObservationAt(g[jj]) && device[kk] == problem.ObservationAt(g[kk]);
    }
  }

  // ----- the device-side problem -----

  function Coords(points: seq<Point>): seq<Vec3> {
    seq(|points|, i requires 0 <= i < |points| => points[i].coords)
  }

  function Xys(observations: seq<Observation>): seq<Vec2> {
    seq(|observations|, i requires 0 <= i < |observations| => observations[i].xy)
  }

  function Infos(observations: seq<Observation>): seq<Mat2> {
    seq(|observations|, i requires 0 <= i < |observations| => observations[i].info)
  }

  /** What a download did to one per-observation vector: index order[k] received slots[k], and the
      indices beyond the uploaded observations kept their value. */
  ghost predicate Delivered<T>(now: seq<T>, before: seq<T>, order: seq<int>, slots: seq<T>) {
    && |now| == |before| && |order| == |slots| <= |now|
    && (forall k :: 0 <= k < |order| ==> 0 <= order[k] < |order| && now[order[k]] == slots[k])
    && now[|order|..] == before[|order|..]
  }

  lemma {:induction false} ScatterKeepsTail<T>(before: seq<T>, order: seq<int>, slots: seq<T>, n: nat)
    requires n <= |order| == |slots| <= |before|
    requires forall k :: 0 <= k < |order| ==> 0 <= order[k] < |order|
    ensures Scatter(before, order, slots, n)[|order|..] == before[|order|..]
  {
    if n > 0 {
      ScatterKeepsTail(before, order, slots, n - 1);
    }
  }

  lemma {:induction false} ScatterIsDelivered<T>(before: seq<T>, order: seq<int>, slots: seq<T>)
    requires Distinct(order) && |order| == |slots| <= |before|
    requires forall k :: 0 <= k < |order| ==> 0 <= order[k] < |order|
    ensures Delivered(Scatter(before, order, slots, |order|), before, order, slots)
  {
    ScatterKeepsTail(before, order, slots, |order|);
    ScatterDelivers(before, order, slots, |order|);
  }

  /** Nothing but the order and the slots decides the delivered part: the original vector comes back. */
  lemma {:induction false} DeliveredGatherRestores<T>(xs: seq<T>, now: seq<T>, before: seq<T>, order: seq<int>)
    requires IsPermutation(order) && |xs| == |order| == |before|
    requires Delivered(now, before, order, Gather(xs, order))
    ensures now == xs
  {
    forall j | 0 <= j < |xs| ensures now[j] == xs[j] {
      assert j in order;
      var k :| 0 <= k < |order| && order[k] == j;
    }
  }

  method DownloadPoints(host: array<Point>, n: nat, problem: BundleAdjustmentProblem)
    requires n <= host.Length && n <= |problem.points|
    modifies problem`points
    ensures problem.points == Coords(host[..n]) + old(problem.points)[n..]
  {
    for i := 0 to n
      invariant problem.points == Coords(host[..i]) + old(problem.points)[i..]
    {
      assert Coords(host[..i + 1]) == Coords(host[..i]) + [host[i].coords];
      problem.points := problem.points[i := host[i].coords];
    }
  }

  method DownloadPoses(host: array<Transform>, n: nat, problem: BundleAdjustmentProblem)
    requires n <= host.Length && n <= |problem.rigFromWorld|
    modifies problem`rigFromWorld
    ensures problem.rigFromWorld == host[..n] + old(problem.rigFromWorld)[n..]
  {
    for i := 0 to n
      invariant problem.rigFromWorld == host[..i] + old(problem.rigFromWorld)[i..]
    {
      assert host[..i + 1] == host[..i] + [host[i]];
      problem.rigFromWorld := problem.rigFromWorld[i := host[i]];
    }
  }

  method DownloadObservations(host: array<Observation>, origin: array<int>, n: nat, problem: BundleAdjustmentProblem)
    requires n <= host.Length && n <= origin.Length && IsPermutation(origin[..n])
    requires n <= |problem.observationXys| && n <= |problem.observationInfos|
    modifies problem`observationXys, problem`observationInfos
    ensures Delivered(problem.observationXys, old(problem.observationXys), origin[..n], Xys(host[..n]))
    ensures Delivered(problem.observationInfos, old(problem.observationInfos), origin[..n], Infos(host[..n]))
  {
    ghost var order, xys, infos := origin[..n], Xys(host[..n]), Infos(host[..n]);
    for jj := 0 to n
      invariant problem.observationXys == Scatter(old(problem.observationXys), order, xys, jj)
      invariant problem.observationInfos == Scatter(old(problem.observationInfos), order, infos, jj)
    {
      var j := origin[jj];
      assert j == order[jj];
      problem.observationXys := problem.observationXys[j := host[jj].xy];
      problem.observationInfos := problem.observationInfos[j := host[jj].info];
    }
    ScatterIsDelivered(old(problem.observationXys), order, xys);
    ScatterIsDelivered(old(problem.observationInfos), order, infos);
  }

  class GpuBundleAdjustmentProblem {
    var numPoints: nat
    var numPoses: nat
    var numObservations: nat
    const points: PinnedArray<Point>
    const observations: PinnedArray<Observation>
    const poses: PinnedArray<Transform>
    var origin: array<int>  // cpu_original_observation_indices_

    ghost function Repr(): set<object>
      reads this, points, observations, poses
    {
      {this, origin, points, points.host, points.device, observations, observations.host, observations.device,
       poses, poses.host, poses.device}
    }

    ghost predicate Valid()
      reads this, points, observations, poses, origin
    {
      && points.Valid() && observations.Valid() && poses.Valid()
      && origin.Length == observations.host.Length
      && numPoints <= points.host.Length && numPoses <= poses.host.Length
      && numObservations <= origin.Length
      && IsPermutation(origin[..numObservations])
    }

    constructor (maxPoints: nat, maxPoses: nat, maxObservations: nat)
      ensures Valid() && numPoints == numPoses == numObservations == 0
    {
      points := new PinnedArray(maxPoints);
      observations := new PinnedArray(maxObservations);
      poses := new PinnedArray(maxPoses);
      origin := new int[maxObservations];
      numPoints, numPoses, numObservations := 0, 0, 0;
    }

    method OriginalObservationIndex(j: nat) returns (original: int)
      requires Valid() && j < numObservations
      ensures original == origin[j] && 0 <= original < numObservations
    {
      original := origin[j];
      assert origin[..numObservations][j] == original;
    }

    static function Grown(size: nat, demand: nat): nat {
      if demand > size then 2 * demand else size
    }

    /** A buffer that is too small gets twice the demand, any other keeps its arrays; the index vector
        follows the observation buffer (prepare_meta). */
    method Reserve(numObservations: nat, numPoints: nat, numPoses: nat)
      requires Valid()
      modifies this, points, observations, poses
      ensures points.Valid() && observations.Valid() && poses.Valid()
      ensures numPoints <= points.host.Length && numPoses <= poses.host.Length
      ensures numObservations <= origin.Length == observations.host.Length
      ensures points.host.Length == Grown(old(points.host.Length), numPoints)
      ensures poses.host.Length == Grown(old(poses.host.Length), numPoses)
      ensures observations.host.Length == Grown(old(observations.host.Length), numObservations)
      ensures numPoints > old(points.host.Length) ==> points.host.Length == 2 * numPoints
      ensures numPoses > old(poses.host.Length) ==> poses.host.Length == 2 * numPoses
      ensures numObservations > old(observations.host.Length) ==> observations.host.Length == 2 * numObservations
      ensures numPoints <= old(points.host.Length) ==>
                points.host == old(points.host) && points.device == old(points.device)
      ensures numPoses <= old(poses.host.Length) ==>
                poses.host == old(poses.host) && poses.device == old(poses.device)
      ensures numObservations <= old(observations.host.Length) ==>
                observations.host == old(observations.host) && observations.device == old(observations.device)
      ensures old(origin.Length) == observations.host.Length ==> origin == old(origin)
      ensures this.numPoints == old(this.numPoints) && this.numPoses == old(this.numPoses)
      ensures fresh(Repr() - old(Repr()))
    {
      if numObservations > observations.host.Length {
        observations.Resize(2 * numObservations);
      }
      if numPoints > points.host.Length {
        points.Resize(2 * numPoints);
      }
      if numPoses > poses.host.Length {
        poses.Resize(2 * numPoses);
      }
      if origin.Length != observations.host.Length {
        origin := new int[observations.host.Length];
      }
    }

    /** Everything set writes once the buffers are large enough. */
    method Upload(problem: BundleAdjustmentProblem)
      requires points.Valid() && observations.Valid() && poses.Valid() && problem.WellFormed()
      requires |problem.points| <= points.host.Length && |problem.rigFromWorld| <= poses.host.Length
      requires |problem.observationXys| <= origin.Length == observations.host.Length
      modifies origin, points.host, points.device, observations.host, observations.device, poses.host, poses.device
      ensures origin[..|problem.observationXys|] == Grouped(problem.pointIds, |problem.points|)
      ensures PointsUploaded(points.device[..], problem.points, problem.pointIds)
      ensures ObservationsUploaded(observations.device[..], origin[..|problem.observationXys|], problem)
      ensures poses.device[..|problem.rigFromWorld|] == problem.rigFromWorld
    {
      UploadPoints(points, problem.points, problem.pointIds, origin);
      UploadPoses(poses, problem.rigFromWorld);
      GroupedIsPermutation(problem.pointIds, |problem.points|);
      UploadObservations(observations, problem, origin);
    }

    method Set(problem: BundleAdjustmentProblem)
      requires Valid() && problem.WellFormed() && problem !in Repr()
      modifies Repr()
      ensures Valid() && fresh(Repr() - old(Repr()))
      ensures numPoints == |problem.points| && numPoses == |problem.rigFromWorld|
      ensures numObservations == |problem.observationXys|
      ensures origin[..numObservations] == Grouped(problem.pointIds, numPoints)
      ensures PointsUploaded(points.device[..], problem.points, problem.pointIds)
      ensures ObservationsUploaded(observations.device[..], origin[..numObservations], problem)
      ensures poses.device[..numPoses] == problem.rigFromWorld
      ensures SlotsHold(observations.device[..], origin[..numObservations], problem.observationXys,
                        problem.observationInfos, problem.pointIds, problem.poseIds, problem.cameraIds)
      ensures SlicesHold(points.device[..], problem.points, observations.device[..], numObservations)
      ensures SlicesKeepOrder(observations.device[..], origin[..numObservations])
    {
      Reserve(|problem.observationXys|, |problem.points|, |problem.rigFromWorld|);
      numObservations := |problem.observationXys|;
      numPoints := |problem.points|;
      numPoses := |problem.rigFromWorld|;
      Upload(problem);
      assert IsPermutation(origin[..numObservations]) by {
        GroupedIsPermutation(problem.pointIds, numPoints);
      }
      UploadedSlotsHold(observations.device[..], origin[..numObservations], problem);
      UploadedSlices(points.device[..], observations.device[..], problem);
    }

    /** Downloads whatever the device holds. Every original observation index below numObservations is
        written from exactly the slot it was sent to; everything else in the problem keeps its value. */
    method Get(problem: BundleAdjustmentProblem)
      requires Valid() && problem !in Repr()
      requires numPoints <= |problem.points| && numPoses <= |problem.rigFromWorld|
      requires numObservations <= |problem.observationXys| && numObservations <= |problem.observationInfos|
      modifies problem, points.host, points.device, poses.host, poses.device, observations.host, observations.device
      ensures Valid() && origin[..] == old(origin[..])
      ensures points.device[..] == old(points.device[..]) && poses.device[..] == old(poses.device[..])
      ensures observations.device[..] == old(observations.device[..])
      ensures problem.points == Coords(points.device[..numPoints]) + old(problem.points)[numPoints..]
      ensures problem.rigFromWorld == poses.device[..numPoses] + old(problem.rigFromWorld)[numPoses..]
      ensures Delivered(problem.observationXys, old(problem.observationXys), origin[..numObservations],
                        Xys(observations.device[..numObservations]))
      ensures Delivered(problem.observationInfos, old(problem.observationInfos), origin[..numObservations],
                        Infos(observations.device[..numObservations]))
      ensures unchanged(problem`pointIds, problem`poseIds, problem`cameraIds)
    {
      var ok := points.CopyTopN(ToCpu, numPoints);
      ok := poses.CopyTopN(ToCpu, numPoses);
      ok := observations.CopyTopN(ToCpu, numObservations);
      DownloadPoints(points.host, numPoints, problem);
      DownloadObservations(observations.host, origin, numObservations, problem);
      DownloadPoses(poses.host, numPoses, problem);
    }
  }

  /** Round trip: with no kernel in between, downloading into any problem of the same sizes makes its
      points, poses, coordinates and information matrices equal to the uploaded ones. */
  method UploadDownload(gpu: GpuBundleAdjustmentProblem, source: BundleAdjustmentProblem,
                        target: BundleAdjustmentProblem)
    requires gpu.Valid() && source.WellFormed() && source !in gpu.Repr() && target !in gpu.Repr()
    requires |target.points| == |source.points| && |target.rigFromWorld| == |source.rigFromWorld|
    requires |target.observationXys| == |target.observationInfos| == |source.observationXys|
    modifies gpu.Repr(), target
    ensures target.points == old(source.points) && target.rigFromWorld == old(source.rigFromWorld)
    ensures target.observationXys == old(source.observationXys)
    ensures target.observationInfos == old(source.observationInfos)
  {
    gpu.Set(source);
    ghost var order := gpu.origin[..gpu.numObservations];
    ghost var n := gpu.numObservations;
    GatheredSlots(gpu.observations.device[..], order, source);
    assert gpu.observations.device[..n] == gpu.observations.device[..][..n];
    assert Coords(gpu.points.device[..gpu.numPoints]) == source.points by {
      assert gpu.points.device[..gpu.numPoints] == gpu.points.device[..][..gpu.numPoints];
    }
    GroupedIsPermutation(source.pointIds, |source.points|);
    ghost var oldXys, oldInfos := target.observationXys, target.observationInfos;
    gpu.Get(target);
    DeliveredGatherRestores(old(source.observationXys), target.observationXys, oldXys, order);
    DeliveredGatherRestores(old(source.observationInfos), target.observationInfos, oldInfos, order);
  }

  lemma {:induction false} GatheredSlots(device: seq<Observation>, order: seq<int>, problem: BundleAdjustmentProblem)
    requires problem.WellFormed() && ObservationsUploaded(device, order, problem)
    ensures forall k :: 0 <= k < |order| ==> 0 <= order[k] < |problem.observationXys|
    ensures Xys(device[..|order|]) == Gather(problem.observationXys, order)
    ensures Infos(device[..|order|]) == Gather(problem.observationInfos, order)
  {
  }
}
