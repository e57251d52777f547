# cuVSLAM host-side algorithms, modelled and proved in Dafny

This project models the algorithms of cuVSLAM that live on the host side and have a specification of their
own, and proves what they are for. Check it with `dafny verify dfyconfig.toml`.

| files | what they model |
|---|---|
| Grouping, BundleProblem | how bundle adjustment regroups observations by point before upload, and undoes it on download |
| CameraGraph, Assignment, FrustumIntersection, OdometrySetup | which cameras of a rig are primary and which secondary, in each multicamera mode, and how the odometry constructor configures that choice |
| PairMatching | association of RGB and depth frames by timestamp |
| OdometryClock, ImuProtocol, ImuPipeline | the two-thread IMU/camera protocol of the RealSense examples against the odometry's timestamp contract |
| Replay, ShuttleReplay, RepeatReplay, ReplayRigs | replaying a recorded log forward, back and forth, and again and again |
| Derivative, CameraModels, CameraProjection, StepExpansion, NewtonResidual | lens distortion, its hand-derived Jacobians, the Newton iteration that inverts it, how exact its result is, and the guarded pixel/ray conversions |
| Ordering, LevelClassifier | the KPI regression check against known levels |
| FeatureSelection | quota-based selection of new features |
| ImuRange, Statistics | visiting IMU samples by time, and the one-pass accumulator |
| Wrappers, Reals | the shared option type and real helpers |

Code that updates state in place is a class or an array method here, proved against functions whose
properties are lemmas. Hash maps are walked in an arbitrary order, threads are interleaved arbitrarily, and
the overlap ratio of a camera pair is an arbitrary function, so the results hold for every order, schedule
and geometry.

## Results worth knowing

- **Bundle adjustment.** The one field that serves as count, cursor and offset ends as the offset; the slots
  are a stable permutation grouped by point; `get` writes each original observation from exactly the slot it
  went to, whatever the device did to the slots in between.
- **Camera graph.** Moderate mode yields a maximal independent set, uniquely determined by the graph.
  Performance mode leaves each secondary with exactly one primary, the one with the largest overlap, for
  every iteration order; its lookup cannot fail. Whether a stereo pair is left after depth cameras were stripped is told
  from graph and settings beforehand, in if-and-only-if form; so is which cameras end primary, for Performance
  mode over all orders of its hash maps together, and who is whose secondary, by the overlap ratios.
- **Association.** On sorted lists the two-cursor walk is a maximum matching, also against crossing ones.
- **Thread protocol.** For every schedule the odometry sees one merged stream in time order; its checks fail
  if and only if the frames themselves are out of order; no sample is lost or duplicated; a sample is late
  only if it is older than a frame already tracked; the second `put_nowait` never finds the queue full. Which
  arrivals become frames and samples is told from the schedule, and every frame met past the warm-up is
  tracked if it is later than the last one.
- **Replay.** Every call of every pass has a closed form. Shuttle timestamps increase strictly over the run
  if and only if the log's frame times do. Repeated replay emits the log once per repetition, shifted, in
  time order, and then nothing.
- **Distortion.** The Jacobians of the Brown and the rational model are the derivatives of `distort`, in the
  sense of the limit of the difference quotient, and no other matrix is. Every pixel that
  goes there and back returns to within focal times a bound computed from lens and radius alone; for a lens
  whose bound is below epsilon everything accepted is a solution, among them every Brown lens without a
  coefficient above one half, up to radius 2. What the loop returns is said on the points it visits.
- **Regression check.** The verdict does not depend on the order of history, values or configurations, nor
  on the unit, nor on the sign when the better direction is flipped with it; what it is, is said of the samples
  themselves.

## Where the code and its own words differ

The model follows the code.

- The gap filter measures each gap to the previous matched pair, kept or not. The gap between consecutive
  frames of its result is bounded as the docstring says exactly if only a tail of the list is dropped
  (`GapPromiseIff`, and for the whole association `GetMatchedRgbdPairs`; `GapPromiseFails` is an input).
- Moderate mode sorts cameras ascending by degree; comments there and in the header speak of the highest
  degree. That fails on three cameras in a row (`HighestDegreeMayBeSecondary`); the primaries are cameras of
  highest degree exactly if all cameras have the same degree (`HighestDegreeIff`). What always holds is
  `ModerateCoversFromBelow`.
- In Precision mode "all cameras are primary"; those without a partner are pruned afterwards unless they are
  depth cameras (`IsolatedIsDropped`). All are primary exactly if every camera is a depth camera or has a
  partner that is not stripped (`AllPrimaryIff`).
- The assertion in the graph constructor fails for a depth camera named twice that has no partner left
  (`DuplicateDepthIdTripsAssertion`). It holds if and only if the mode gives every repeated one a partner that is
  not stripped: in the graph for Precision, in the setup for Manual, in the graph for a camera chosen greedily
  for Moderate (`RepeatedKeepSecondary`). In Performance a tie between primaries of equal ratio is decided by the
  order of a hash map (`TieIsFree`); there the assertion holds for every order if and only if every repeated
  one is the sole best primary of a camera that is not stripped (`AssertionHoldsInEveryIff`). The odometry
  never passes a repeated one.
- The header says of Manual mode that no checks are done; `set_manual_mode` refuses a setup of the wrong
  size, a camera listed as its own secondary and an index out of range. It accepts exactly the others
  (`SetManualMode`); what it does not check is the overlap.
- "cuVSLAM needs at least one stereo pair for Multicamera or Inertial mode" can never be reported, because in
  every mode but Multisensor some camera counts as a depth camera, in those two camera 0. The only "bad
  calibration" the graph leads to is the other message, for Multisensor; it is given exactly without depth
  cameras on a rig where no pair overlaps.
- Nor does an accepted rig always keep a stereo pair: cameras 1 and 2 overlapping only camera 0 are accepted
  and end with none (`RowLosesItsPairs`, `OverlappingRigWithoutPair`). In those modes a pair is left exactly if
  some pair overlaps (Precision), or if a pair other than camera 0 overlaps or camera 0 has exactly one partner
  (Performance, Moderate); `ConfigureFrustumGraph` has the condition for every mode.
- IMU events after the last frame make the base replay report the end of the data one call before the
  wrapper turns, once per loop of the shuttle, or rewinds, once per pass of the repetition (both `EarlyEndIff`).
- "Drop the oldest sample" is meant for a full queue. The camera thread may empty part of the queue between the
  failed put and the get, so that a sample is dropped although there is room (`DropsWithRoom`); the queue is still
  full at the get exactly if the camera thread took nothing in between (`FullWhenEvictingIff`).
- The Newton loop also stops on a small step, without another residual test. A point accepted that way need not
  pass the test (`AcceptedButNotSolved`). That it does can be told from the lens and the radius up to which
  points are accepted: a bound on the residual there is below epsilon (`AccurateSolves`; `MildIsAccurate` is a
  family of lenses for which it is, and `ClearByCoefficients` serves the rational model's denominator). The
  converse is not claimed; the residual itself is given by `ResidualIsMissed`. A tenth step is never accepted.
- A range query over an empty interval visits the sample after it, so two adjacent queries together visit
  what one query would exactly under the condition of `AdjacentQueriesIff`.
- A baseline window of 0 keeps the whole history, and no values for tonight would count as a regression; the
  caller always passes at least one.

## Model

| member | source | states |
|---|---|---|
| PairMatching.FindMatchingPairs | examples/tum/dataset_utils.py:80-109 | terminates; each pair carries time and file of the two positions it stands for, less than the threshold apart, both positions increasing; on sorted lists no one-to-one matching within the threshold, crossing or not, has more pairs |
| PairMatching.WalkIsMatching | examples/tum/dataset_utils.py:92-109 | the walk's pairs form a one-to-one matching within the threshold, without duplicates |
| PairMatching.Exchange | examples/tum/dataset_utils.py:96-99 | taking the pair at both cursors costs an arbitrary matching of the rest at most one pair |
| PairMatching.WalkIsMaximum | examples/tum/dataset_utils.py:92-109 | from any two cursor positions no matching of the suffixes is larger than what the walk still finds |
| PairMatching.UnsortedWalkMayMiss | examples/tum/dataset_utils.py:92-109 | on an unsorted list the walk can miss a pair that exists |
| PairMatching.FilterTimeGaps | examples/tum/dataset_utils.py:150-164 | keeps, in order, exactly the pairs whose rgb time is at most the maximum gap after that of the matched pair before |
| PairMatching.KeptMembers | examples/tum/dataset_utils.py:111-125 | which positions the filter keeps, increasing |
| PairMatching.GapPromiseIff | examples/tum/dataset_utils.py:134-164 | consecutive kept frames are within the maximum gap if and only if only a tail is dropped |
| PairMatching.GapPromiseFails | examples/tum/dataset_utils.py:134-164 | three frames on which the documented promise fails |
| PairMatching.FilteredGaps | examples/tum/dataset_utils.py:150-164 | the same condition on the list of pairs the filter returns |
| PairMatching.GetMatchedRgbdPairs | examples/tum/dataset_utils.py:127-164 | matching and filter together, in those terms; on time-sorted rgb frames the gaps are bounded if and only if only a tail of the matched pairs is dropped |
| Grouping.OccurrencesMeaning | libs/cuda_modules/sba.cpp:475-489 | a point's slice holds exactly the indices of its observations, increasing |
| Grouping.SliceInGrouped | libs/cuda_modules/sba.cpp:480-493 | the slice at a point's offset, of its count's length, is that point's slice of the grouped order |
| Grouping.SliceOfPosition | libs/cuda_modules/sba.cpp:480-493 | the slices tile the range: every position lies in exactly one point's slice |
| Grouping.GroupedIsPermutation | libs/cuda_modules/sba.cpp:486-489 | with all point ids in range the stored indices are a permutation of all observation indices |
| Grouping.GroupedIsStable | libs/cuda_modules/sba.cpp:486-489 | two positions holding observations of one point keep their original order |
| Grouping.ScatterDelivers | libs/cuda_modules/sba.cpp:551-560 | writing back along a permutation puts every slot at its own index and touches nothing else |
| Grouping.ScatterGather | libs/cuda_modules/sba.cpp:544-567 | scattering what was gathered restores the original |
| BundleProblem.PinnedArray.Resize | libs/cuda_modules/cuda_helper.h:186-211 | no-op for the same size, else new host and device buffers |
| BundleProblem.PinnedArray.CopyTopN | libs/cuda_modules/cuda_helper.h:161-178 | copies exactly the first n elements one way, and rejects a range that is too long |
| BundleProblem.CountObservations | libs/cuda_modules/sba.cpp:475-478 | every count becomes the number of observations of its point |
| BundleProblem.PrefixSums | libs/cuda_modules/sba.cpp:480-484 | every first observation id becomes the offset of its point's slice |
| BundleProblem.CursorIsFree | libs/cuda_modules/sba.cpp:486-489 | the cursor of a point never hits a position already filled for any point |
| BundleProblem.Distribute | libs/cuda_modules/sba.cpp:486-489 | the index array becomes the grouped order, and each cursor ends behind its slice |
| BundleProblem.RestoreOffsets | libs/cuda_modules/sba.cpp:491-493 | the cursors become offsets again |
| BundleProblem.CountingSort | libs/cuda_modules/sba.cpp:469-493 | the five loops together: points with their coordinates, offsets and counts, indices in grouped order |
| BundleProblem.UploadObservations | libs/cuda_modules/sba.cpp:513-532 | every field of every device slot, the five written out: coordinates, information matrix, point, pose and camera id of the observation it stands for |
| BundleProblem.DownloadObservations | libs/cuda_modules/sba.cpp:551-560 | every slot's coordinates and matrix go to its original index, all else keeps its value |
| BundleProblem.DeliveredGatherRestores | libs/cuda_modules/sba.cpp:544-567 | delivering unchanged slots restores the original list |
| BundleProblem.GpuBundleAdjustmentProblem.constructor | libs/cuda_modules/sba.cpp:430-436 | an empty valid problem |
| BundleProblem.GpuBundleAdjustmentProblem.Reserve | libs/cuda_modules/sba.cpp:453-463 | a buffer that is too small gets twice the demand, a large enough one keeps its arrays; the index vector follows the observation buffer |
| BundleProblem.GpuBundleAdjustmentProblem.Set | libs/cuda_modules/sba.cpp:451-535 | an upload from any earlier state: every field of every slot is that of the observation the index array names; the slots from a point's offset on, as many as its count, are exactly its observations, in their original order |
| BundleProblem.GpuBundleAdjustmentProblem.Get | libs/cuda_modules/sba.cpp:537-570 | whatever the device holds, each slot is delivered to the observation it came from, each original index written once |
| BundleProblem.GpuBundleAdjustmentProblem.OriginalObservationIndex | libs/cuda_modules/sba.cpp:578 | maps a slot to a valid original index |
| BundleProblem.UploadDownload | libs/cuda_modules/sba.cpp:451-570 | set then get restores points, poses, coordinates and matrices exactly |
| CameraGraph.BuildCameraGraph | libs/camera/frustum_intersection_graph.cpp:109-122 | a pair of cameras has an edge, entered at both ends with the pair's overlap ratio, if and only if that exceeds 0.5; a degree is the number of neighbours |
| CameraGraph.PartnersMeaning | libs/camera/frustum_intersection_graph.cpp:109-122 | a node lists exactly the cameras overlapping it, in order, with the pair's ratio |
| CameraGraph.BuiltEdges | libs/camera/frustum_intersection_graph.cpp:109-122 | the same said of the finished graph, edge by edge |
| CameraGraph.BuiltGraphIsSound | libs/camera/frustum_intersection_graph.cpp:49-126 | the built graph is symmetric, without loops, its degrees and ratios right |
| CameraGraph.SortedCameras | libs/camera/frustum_intersection_graph.cpp:196-203 | the visiting order: a permutation of the cameras, ascending by degree, then by id |
| CameraGraph.ModerateIsMaximalIndependent | libs/camera/frustum_intersection_graph.cpp:186-230 | no two primaries are adjacent, every other camera is adjacent to one, no secondary is a primary |
| CameraGraph.ModerateCoversFromBelow | libs/camera/frustum_intersection_graph.cpp:196-228 | every secondary has an adjacent primary of no larger degree |
| CameraGraph.HighestDegreeMayBeSecondary | libs/camera/frustum_intersection_graph.cpp:196-203 | three cameras in a row: the one of highest degree ends up secondary |
| CameraGraph.HighestDegreeIff | libs/camera/frustum_intersection_graph.h:34 | every primary has the largest degree of the graph if and only if all cameras have the same degree |
| CameraGraph.PrimaryIffChosen | libs/camera/frustum_intersection_graph.cpp:186-230 | a camera is primary if and only if no earlier camera that is itself chosen lists it |
| CameraGraph.UnchosenBesidesIff | libs/camera/frustum_intersection_graph.cpp:186-230 | some camera besides d is left secondary if and only if an edge avoids d or d's only partner has a larger id |
| CameraGraph.ModerateIsUnique | libs/camera/frustum_intersection_graph.cpp:186-230 | the graph determines primaries and secondaries |
| Assignment.EraseAmong | libs/camera/frustum_intersection_graph.cpp:295-303 | erasing the collected cameras one by one never fails and leaves the rest in order |
| Assignment.AssignedExactlyOnce | libs/camera/frustum_intersection_graph.cpp:156-183 | after the reassignment a secondary is listed by exactly one primary, its best, and no secondary is lost |
| FrustumIntersection.FrustumIntersectionGraph.SetPrecisionMode | libs/camera/frustum_intersection_graph.cpp:130-144 | every camera primary with all its neighbours |
| FrustumIntersection.FrustumIntersectionGraph.SetModerateMode | libs/camera/frustum_intersection_graph.cpp:186-230 | queue and visited set compute the greedy choice, for which see ModerateIsMaximalIndependent |
| FrustumIntersection.FrustumIntersectionGraph.SetPerformanceMode | libs/camera/frustum_intersection_graph.cpp:146-184 | for every iteration order each secondary stays only with the listing primary of largest ratio |
| FrustumIntersection.BestPrimary | libs/camera/frustum_intersection_graph.cpp:156-173 | among the listing primaries the first of largest ratio; the lookup finds each of them |
| FrustumIntersection.ListersAreNeighbours | libs/camera/frustum_intersection_graph.cpp:160-171 | every primary that lists a secondary is among the secondary's neighbours, so the lookup succeeds |
| FrustumIntersection.Invert | libs/camera/frustum_intersection_graph.cpp:149-154 | the inverse map, for every iteration order |
| FrustumIntersection.FrustumIntersectionGraph.SetManualMode | libs/camera/frustum_intersection_graph.cpp:232-261 | accepts exactly the setups of right size without self or out-of-range secondaries |
| FrustumIntersection.EveryModeHasFacts | libs/camera/frustum_intersection_graph.cpp:130-261 | in every mode: distinct primaries, exactly one map entry each, a secondary exactly if the mode had a pair to offer |
| FrustumIntersection.FinishedIsEstablished | libs/camera/frustum_intersection_graph.cpp:266-337 | the invariant every mode ends with: depth cameras primary, idle primaries only depth cameras, no depth camera secondary without stereo tracking |
| FrustumIntersection.ValidIff | libs/camera/frustum_intersection_graph.cpp:266-356 | is_valid holds if and only if depth ids are given or the mode had a pair (in automatic modes: the graph has an edge) |
| FrustumIntersection.FinishedMember | libs/camera/frustum_intersection_graph.cpp:290-336 | a camera keeps secondaries if and only if the mode gave it one that is not stripped, and is primary if and only if that holds or it is a depth camera |
| FrustumIntersection.KeepsSecondaryIff | libs/camera/frustum_intersection_graph.cpp:130-261 | that condition from the graph (Precision), the setup (Manual), the greedy choice (Moderate) |
| FrustumIntersection.PerformanceKeepsSecondary | libs/camera/frustum_intersection_graph.cpp:146-184 | for one run of Performance: the sole best primary of an unstripped camera keeps it, and who keeps one is among the best; KeepsInEveryIff and KeepsInSomeIff make both exact |
| FrustumIntersection.KeepsInEveryIff | libs/camera/frustum_intersection_graph.cpp:146-184 | Performance: a camera keeps an unstripped secondary for every order of the hash maps if and only if it is the sole best primary of one |
| FrustumIntersection.KeepsInSomeIff | libs/camera/frustum_intersection_graph.cpp:146-184 | and for some order if and only if it is among the best of one |
| FrustumIntersection.PrimaryInEveryIff | libs/camera/frustum_intersection_graph.cpp:266-337 | Performance: a camera ends primary for every order if and only if it is a depth camera or surely keeps a secondary |
| FrustumIntersection.AssertionHoldsInEveryIff | libs/camera/frustum_intersection_graph.cpp:328-336 | Performance: the constructor's assertion holds for every order if and only if every repeated depth id surely keeps a secondary |
| FrustumIntersection.LookupSucceedsIff | libs/camera/frustum_intersection_graph.cpp:160-171 | the ratio lookup of Performance finds every listing primary if and only if cameras listed by chosen ones have the edge back |
| FrustumIntersection.OneSidedLookupFails | libs/camera/frustum_intersection_graph.cpp:160-171 | a graph with a one-sided edge on which the lookup finds nothing |
| FrustumIntersection.TieIsFree | libs/camera/frustum_intersection_graph.cpp:156-183 | with equal ratios either primary may keep the secondary |
| FrustumIntersection.PairRemainsIff | libs/camera/frustum_intersection_graph.cpp:266-337 | a stereo pair is left if and only if: Precision, an edge to an unstripped camera; Manual, such an entry; otherwise, an unstripped camera that is not chosen |
| FrustumIntersection.PairRemainsBesides | libs/camera/frustum_intersection_graph.cpp:266-337 | the same with one camera stripped, as a condition on edges alone |
| FrustumIntersection.RowLosesItsPairs | libs/camera/frustum_intersection_graph.cpp:290-336 | three cameras in a row, the middle one stripped: primaries exist, the graph has edges, no pair is left |
| FrustumIntersection.AllPrimaryIff | libs/camera/frustum_intersection_graph.h:32 | Precision: all cameras are primary if and only if each is a depth camera or has an unstripped partner |
| FrustumIntersection.IsolatedIsDropped | libs/camera/frustum_intersection_graph.cpp:306-326 | Precision: an isolated camera is not primary |
| FrustumIntersection.ResultFromLists | libs/camera/frustum_intersection_graph.cpp:328-336 | the constructor's assertion as a condition on the mode's lists, before post-processing |
| FrustumIntersection.FrustumIntersectionGraph.StripDepthCameras | libs/camera/frustum_intersection_graph.cpp:291-305 | depth cameras leave all lists when stereo tracking for depth is off |
| FrustumIntersection.FrustumIntersectionGraph.PruneIdlePrimaries | libs/camera/frustum_intersection_graph.cpp:306-326 | primaries without secondaries leave, order kept |
| FrustumIntersection.FrustumIntersectionGraph.AddDepthCameras | libs/camera/frustum_intersection_graph.cpp:328-336 | missing depth cameras become primaries; when the assertion holds |
| FrustumIntersection.FrustumIntersectionGraph.Initialize | libs/camera/frustum_intersection_graph.cpp:266-337 | the constructor in all modes: result, invariant, validity; which cameras are primary and who lists whom, whether a pair is left and whether the assertion holds, in if-and-only-if form from graph and settings, for Performance between the bounds that PrimaryInEveryIff and AssertionHoldsInEveryIff show exact |
| FrustumIntersection.ListsInTheEnd | libs/camera/frustum_intersection_graph.cpp:130-337 | who lists whom in the end: Precision, every unstripped partner; Moderate, the same for chosen cameras; Manual, the setup; Performance, each unstripped camera with a chosen partner is listed by exactly one, of largest ratio |
| FrustumIntersection.FrustumIntersectionGraph.IsValid | libs/camera/frustum_intersection_graph.cpp:339-356 | primaries exist and each has an entry |
| OdometrySetup.MultisensorDepthIds | libs/cuvslam/cuvslam2.cpp:706-715 | accepts exactly the lists in range and without repetition and returns them; otherwise says what is wrong with the first bad id |
| OdometrySetup.CollectDepthIds | libs/cuvslam/cuvslam2.cpp:695-719 | for each odometry mode, written out: the depth ids and the stereo choice, or the refusal if and only if the ids are not in range and distinct |
| OdometrySetup.ChosenIffByOverlap | libs/camera/frustum_intersection_graph.cpp:186-230 | a camera is chosen in Moderate mode if and only if no chosen one among those it overlaps above 0.5 comes before it, by fewer partners, then by id |
| OdometrySetup.KeepsByOverlap | libs/camera/frustum_intersection_graph.cpp:146-184 | Performance: who surely keeps and who may keep a secondary, by comparing overlap ratios of chosen cameras |
| OdometrySetup.LargerOverlapWins | libs/camera/frustum_intersection_graph.cpp:156-183 | three cameras, overlaps 0.6 and 0.9 with the third: in Performance mode the one with the larger overlap is the only primary and lists it |
| OdometrySetup.EdgeIffOverlap | libs/camera/frustum_intersection_graph.cpp:109-122 | the graph has an edge if and only if some pair overlaps above the ratio |
| OdometrySetup.ConfigureFrustumGraph | libs/cuvslam/cuvslam2.cpp:695-734 | exactly when each refusal is given; otherwise, from configuration and overlap ratios: the class invariant for the configured depth cameras, which cameras are primary and who is whose secondary (for Performance, the comparison of overlap ratios that decides), and exactly when a stereo pair is left; the graph constructor's assertion holds |
| OdometrySetup.SelectPrimaries | libs/camera/frustum_intersection_graph.cpp:266-356 | the same for graph building, graph constructor and is_valid in a row |
| OdometrySetup.PairRemainsByOverlap | libs/cuvslam/cuvslam2.cpp:719-734 | with at most one stripped camera, whether a pair is left as a condition on the overlaps |
| OdometrySetup.OverlappingRigWithoutPair | libs/cuvslam/cuvslam2.cpp:719-734 | a concrete Multicamera rig that is accepted and has no stereo pair left |
| OdometrySetup.CheckPrimaryCameras | libs/cuvslam/cuvslam2.cpp:276-287 | exactly when the check refuses |
| OdometrySetup.TrackerPrimariesAccepted | libs/cuvslam/cuvslam2.cpp:1197-1198 | primaries that come from the odometry always pass |
| OdometrySetup.DuplicateDepthIdTripsAssertion | libs/camera/frustum_intersection_graph.cpp:328-336 | a concrete rig on which a repeated depth id fails the assertion |
| OdometryClock.Odometry.RegisterImuMeasurement | libs/cuvslam/cuvslam2.cpp:837-858 | which timestamps are refused, and the clock after an accepted one |
| OdometryClock.Odometry.Track | libs/cuvslam/cuvslam2.cpp:895-911 | which frame timestamps are refused, and the clock after an accepted one |
| ImuProtocol.RegisterNeverRefused | examples/realsense/run_vio.py:148-164 | a sample not older than the last tracker call passes the odometry's check |
| ImuProtocol.TrackRefusedIff | libs/cuvslam/cuvslam2.cpp:895-911 | a due frame is refused if and only if it is not later than the frame before |
| ImuProtocol.StepKeepsInvariant | examples/realsense/run_vio.py:90-227 | every atomic step of either thread keeps the invariant |
| ImuProtocol.RunKeepsInvariant | examples/realsense/run_vio.py:90-227 | every schedule of any length keeps it |
| ImuProtocol.CallsAreOrdered | examples/realsense/run_vio.py:148-217 | the merged calls are in non-decreasing time order, frames strictly, samples an in-order subsequence of those captured |
| ImuProtocol.FailsIffFramesDisordered | libs/cuvslam/cuvslam2.cpp:840-911 | the camera thread fails if and only if its frames are not strictly increasing |
| ImuProtocol.SampleIsInOnePlace | examples/realsense/run_multisensor.py:129-195 | each accepted sample is in exactly one of queue, pending, registered, late, dropped or in the producer's hand |
| ImuProtocol.LateOnlyBehindFrames | examples/realsense/run_vio.py:148-164 | in every reachable state late samples are older than the last tracked frame, and a frame about to be tracked has no pending sample at or before it |
| ImuProtocol.SecondPutSucceeds | examples/realsense/run_vio.py:119-128 | the queue never exceeds its capacity, and the second put always finds room |
| ImuProtocol.FramesAreThoseMet | examples/realsense/run_multisensor.py:252-287 | for every schedule the frames processed are the arrivals that found the camera thread waiting, without the first warm-up ones |
| ImuProtocol.AcceptedAreThoseTaken | examples/realsense/run_vio.py:90-118 | for every schedule the samples accepted are the arrivals that found the IMU thread capturing and were not older than the sample accepted before |
| ImuProtocol.DropsOldestQueued | examples/realsense/run_vio.py:119-128 | what is dropped is the oldest sample queued, by the get after a failed put only |
| ImuProtocol.EvictsIffFull | examples/realsense/run_vio.py:119-128 | that get is tried if and only if a put found the queue at capacity; with room the sample is appended |
| ImuProtocol.FullWhenEvictingIff | examples/realsense/run_vio.py:119-149 | at that get the queue is at capacity if and only if the camera thread took nothing since the failed put; it has room for exactly what was taken |
| ImuProtocol.DropsWithRoom | examples/realsense/run_vio.py:119-149 | a schedule on which a sample is dropped although the queue has room by then |
| ImuProtocol.FrameIsTracked | examples/realsense/run_vio.py:135-217 | past the warm-up, a frame that finds the camera thread waiting ends, after enough steps of that thread, in the call Track for it if it is later than the last tracked frame, otherwise in a failure |
| ImuPipeline.Pipeline.AdvanceProducer | examples/realsense/run_vio.py:119-128 | the put, drop and put-again steps as the protocol has them |
| ImuPipeline.Pipeline.ReceiveFrame | examples/realsense/run_multisensor.py:252-287 | one arrival is one step of the protocol; for what a run of them does see FramesAreThoseMet and FrameIsTracked |
| ImuPipeline.Pipeline.RegisterOldest | examples/realsense/run_vio.py:148-164 | one round of the registration loop against the real odometry object |
| ImuPipeline.Pipeline.Execute | examples/realsense/run_vio.py:90-227 | the objects under any schedule end in the protocol's state, with the invariant, so that what the protocol says of schedules is said of them |
| ImuPipeline.Pipeline.DrainQueue | examples/realsense/run_vio.py:141-147 | with no capture in between, everything queued becomes pending, in order |
| ImuPipeline.Pipeline.RegisterPending | examples/realsense/run_vio.py:148-164 | the due prefix is registered or found late, the rest stays |
| ImuPipeline.Pipeline.RegisterImuUntil | examples/realsense/run_vio.py:135-164 | with no capture in between, afterwards exactly the buffered samples later than the frame are pending, the others registered unless late |
| ImuPipeline.DueMeaning | examples/realsense/run_vio.py:148-164 | on an ordered buffer the due prefix is everything up to the frame and nothing later |
| Replay.SkipReachesNext | libs/camera_rig_edex/camera_rig_edex.cpp:216-234 | skipping IMU events reaches the frame whose rank is the number of frames already played |
| Replay.StartedIsReplayable | libs/camera_rig_edex/camera_rig_edex.cpp:168-177 | a non-empty log that start leaves has what both wrappers need |
| Replay.TurnReplaysLastEvent | libs/camera_rig_edex/camera_rig_edex.cpp:59-66 | after a turn the next event is the one played just before it, and turning back undoes the turn |
| Replay.BackwardWindow | libs/camera_rig_edex/camera_rig_edex.cpp:59-66 | reading backward yields the same frames in opposite order |
| Replay.SeekLands | libs/camera_rig_edex/camera_rig_edex.cpp:45-57 | seeking rank n lands on the frame that has n frames before it, and fails if and only if there are no more than n |
| ShuttleReplay.ShuttleReturns | libs/camera_rig_edex/shuttle_camera_rig_edex.cpp:26-67 | closed form of every call: the frames forward, then mirrored backward, shifted per loop |
| ShuttleReplay.CallReturns | libs/camera_rig_edex/shuttle_camera_rig_edex.cpp:26-67 | the same on call numbers and times written out: the shift of loop l is l times twice the span and 33333333 ns, the mirror lies 33333333 ns behind the last event |
| ShuttleReplay.ShuttleExhausted | libs/camera_rig_edex/shuttle_camera_rig_edex.cpp:26-37 | after the last loop every call reports the end |
| ShuttleReplay.EmptyLogReturnsNothing | libs/camera_rig_edex/shuttle_camera_rig_edex.cpp:50-67 | a log without frames is over at once |
| ShuttleReplay.RunIncreasesIff | libs/camera_rig_edex/shuttle_camera_rig_edex.cpp:39-48 | timestamps increase strictly across all loops and turns if and only if the log's frame times do |
| ShuttleReplay.ShuttleDeliversExactly | libs/camera_rig_edex/shuttle_camera_rig_edex.cpp:26-67 | exactly 2 F loops frames, however long the calling goes on |
| ShuttleReplay.EarlyEndIff | libs/camera_rig_edex/camera_rig_edex.cpp:218-234 | an end is reported before the last frame if and only if IMU events follow the log's last frame, and then once in every loop |
| RepeatReplay.RepeatReturns | libs/camera_rig_edex/repeated_camera_rig_edex.cpp:28-65 | closed form of every call of every repetition |
| RepeatReplay.CallReturns | libs/camera_rig_edex/repeated_camera_rig_edex.cpp:28-65 | the same on call numbers and times written out: the shift of pass l is l times the span and 33333333 ns |
| RepeatReplay.EarlyEndIff | libs/camera_rig_edex/camera_rig_edex.cpp:218-234 | an end is reported within a pass if and only if IMU events follow the last frame, and then by the last call of every pass |
| RepeatReplay.CallEmits | libs/camera_rig_edex/camera_rig_edex.cpp:216-234 | one call emits exactly the stretch of the log up to its next frame, shifted |
| RepeatReplay.WholeRun | libs/camera_rig_edex/repeated_camera_rig_edex.cpp:28-74 | callbacks and frames of the whole run are the log once per repetition, each event once and in order, of its kind and l times the span and 33333333 ns later in pass l; then nothing |
| RepeatReplay.EmptyLogReturnsNothing | libs/camera_rig_edex/repeated_camera_rig_edex.cpp:48-74 | a log without frames is over at once, with nothing returned or called back |
| RepeatReplay.StreamOrdered | libs/camera_rig_edex/repeated_camera_rig_edex.cpp:40-46 | that stream is in time order, frames strictly if the log's are, also across repetitions |
| RepeatReplay.PassesFrames | libs/camera_rig_edex/repeated_camera_rig_edex.cpp:28-38 | it holds exactly repeats times F frames |
| ReplayRigs.SortEvents | libs/camera_rig_edex/camera_rig_edex.cpp:168-172 | sorted in replay direction, a permutation; ties in any order |
| ReplayRigs.StartKeepsFrames | libs/camera_rig_edex/camera_rig_edex.cpp:168-177 | start drops exactly the events before the first frame, none of them a frame; what it leaves is sorted in replay direction |
| ReplayRigs.CameraRigEdex.Start | libs/camera_rig_edex/camera_rig_edex.cpp:168-177 | the list start leaves, also when it held events before |
| ReplayRigs.CameraRigEdex.SetCurrentFrame | libs/camera_rig_edex/camera_rig_edex.cpp:45-57 | the cursor ends on the frame that has as many frames before it in the list as the number says; there is none if and only if the list has no more frames; a negative number finds none |
| ReplayRigs.CameraRigEdex.SetReplayForward | libs/camera_rig_edex/camera_rig_edex.cpp:59-66 | reversing the list in place and mirroring the index is a turn of the log |
| ReplayRigs.CameraRigEdex.HandleImuEvents | libs/camera_rig_edex/camera_rig_edex.cpp:218-230 | plays IMU events up to the next frame; calls back only when replaying forward |
| ReplayRigs.CameraRigEdex.GetFrame | libs/camera_rig_edex/camera_rig_edex.cpp:206-318 | one step of the base replay on the reversed or unreversed list |
| ReplayRigs.ShuttleCameraRigEdex.CheckEndOfSequence | libs/camera_rig_edex/shuttle_camera_rig_edex.cpp:26-37 | the turn at the end, and the loop count |
| ReplayRigs.ShuttleCameraRigEdex.NextFrame | libs/camera_rig_edex/shuttle_camera_rig_edex.cpp:50-67 | one call is one step of the shuttle |
| ReplayRigs.ShuttleCameraRigEdex.GetFrame | libs/camera_rig_edex/shuttle_camera_rig_edex.cpp:50-67 | call by call the object returns what ShuttleReturns describes |
| ReplayRigs.RepeatedCameraRigEdex.CheckEndOfSequence | libs/camera_rig_edex/repeated_camera_rig_edex.cpp:28-38 | the rewind at the end, and the repetition count |
| ReplayRigs.RepeatedCameraRigEdex.NextFrame | libs/camera_rig_edex/repeated_camera_rig_edex.cpp:48-74 | one call, callbacks included, is one step of the repetition |
| ReplayRigs.RepeatedCameraRigEdex.GetFrame | libs/camera_rig_edex/repeated_camera_rig_edex.cpp:48-74 | call by call the object returns and calls back what WholeRun describes |
| CameraModels.DistortOnDuals | libs/camera/camera.cpp:272-335 | distort on dual numbers moving along a line: its first part is distort along the line, its second the derivative |
| CameraModels.JacobianIsDerivative | libs/camera/camera.cpp:290-363 | compute_distort_jacobian times a direction is the derivative of distort in that direction, for both models, at every point where distort is defined |
| CameraModels.JacobianIsLimit | libs/camera/camera.cpp:290-363 | the difference quotients of distort in a direction come as close to the matrix times the direction as one likes, near the point |
| CameraModels.JacobianIsUnique | libs/camera/camera.cpp:290-363 | no other matrix has that property |
| CameraModels.DistortIs | libs/camera/camera.cpp:272-335 | distort written out: the point scaled by a power series in the squared radius, for the rational model by the quotient of two, plus the tangential terms |
| CameraProjection.Iterate | libs/camera/camera.cpp:215-260 | what the loop returns, on the points it visits: it goes on from each point by a move longer than 0.00001; it accepts a point where the step says solved and refuses one where it is stuck; a move that is not longer ends the loop, accepted unless it was the tenth; after ten long moves it refuses |
| CameraProjection.UndistortPoint | libs/camera/camera.cpp:215-260 | undistort of all three models, in those terms; for a step see RoundMeaning |
| CameraProjection.SearchAlong | libs/camera/camera.cpp:223-259 | for any sequence of points reached by long moves from the start: how the loop ends there, point, number of steps and exit, or that it goes on |
| CameraProjection.ExhaustedIff | libs/camera/camera.cpp:223-259 | the loop runs out of steps if and only if ten moves can be made of which none of the first nine is small |
| CameraProjection.RoundMeaning | libs/camera/camera.cpp:223-256 | one round: solved if and only if distort is within 2^-23 of the target; stuck if and only if distort is undefined, or it is not and the determinant is at most 0.00001 in size; otherwise the move is the one solution of the linear equation |
| CameraProjection.UndistortExit | libs/camera/camera.cpp:223-259 | what each way out of the loop guarantees; at most ten steps |
| CameraProjection.MovedIsNewton | libs/camera/camera.cpp:240-256 | a step solves the linearised equation exactly |
| CameraProjection.NewtonHeadsForTarget | libs/camera/camera.cpp:240-256 | along a step distort starts out at the rate that reaches the target |
| CameraProjection.SmallStepBound | libs/camera/camera.cpp:223-259 | leaving on a small step bounds the residual of the point before it |
| StepExpansion.DistortExpands | libs/camera/camera.cpp:272-363 | for any two points where it is defined, distort differs from its linearisation by an explicit remainder, for all three models |
| NewtonResidual.ResidualIsMissed | libs/camera/camera.cpp:223-256 | after a step the residual is exactly what the linearisation missed, given as a formula of second order in the step |
| NewtonResidual.SmallStepResidual | libs/camera/camera.cpp:223-259 | leaving on a small step bounds the residual of the point returned, to second order in the precision, in terms of that point and the one before; for a bound known beforehand see SmallStepInLens |
| NewtonResidual.SmallStepSolvesIff | libs/camera/camera.cpp:223-259 | the residual test read on the remainder, once both points are known; for a condition known beforehand see AccurateSolves |
| NewtonResidual.SmallStepInLens | libs/camera/camera.cpp:60-91 | a point accepted on a small step within the radius has a residual within a bound computed from lens and radius alone |
| NewtonResidual.AccurateSolves | libs/camera/camera.cpp:60-91 | for a lens whose bound is below epsilon every normalized pixel is a solution, however the loop ended |
| NewtonResidual.MildIsAccurate | libs/camera/camera.cpp:272-288 | Brown lenses with no coefficient above one half are such lenses, up to radius 2 |
| NewtonResidual.ClearByCoefficients | libs/camera/camera.cpp:326-335 | when the coefficients alone keep the rational model's denominator away from zero |
| NewtonResidual.AcceptedButNotSolved | libs/camera/camera.cpp:223-259 | a concrete lens and pixel accepted on a small step without being a solution |
| CameraProjection.Create | libs/camera/camera.cpp:34-58 | exactly which intrinsics are refused, and what the camera keeps |
| CameraProjection.NormalizeIff | libs/camera/camera.cpp:60-72 | when a pixel can be normalized and to what: inside the pixel radius, where undistort ends with success, inside the point radius |
| CameraProjection.DenormalizeIff | libs/camera/camera.cpp:74-91 | a point is shown as a pixel if and only if it is inside its radius, distorts to a point inside the other, and the pixel lies that many focal lengths from the principal point |
| CameraProjection.RoundTrip | libs/camera/camera.cpp:60-91 | a pixel found through the residual test comes back to within focal times epsilon per axis |
| NewtonResidual.SmallStepRoundTrip | libs/camera/camera.cpp:60-91 | a pixel accepted on a small step comes back to within focal times the second-order bound at its two points |
| NewtonResidual.EveryPixelComesBack | libs/camera/camera.cpp:60-91 | every pixel that can be normalized and denormalized comes back to within focal times the larger of epsilon and the bound of the lens |
| NewtonResidual.AccurateRoundTrip | libs/camera/camera.cpp:60-91 | for a lens whose bound is below epsilon, a normalized pixel inside the distorted radius by epsilon always has a way back and returns to within focal times epsilon |
| NewtonResidual.WayBackOpen | libs/camera/camera.cpp:74-91 | found through the residual test, a pixel inside the distorted radius by epsilon always has a way back |
| CameraProjection.WayBackIff | libs/camera/camera.cpp:74-91 | for such a pixel the way back is open if and only if the distorted point is inside its radius, which WayBackOpen settles beforehand |
| CameraProjection.PinholeRoundTrip | libs/camera/camera.cpp:103-111 | pinhole: the way back always succeeds and is exact |
| CameraProjection.PinholePointRoundTrip | libs/camera/camera.cpp:103-111 | the same starting from a point |
| CameraProjection.PinholeAcceptsIff | libs/camera/camera.cpp:60-91 | both directions accept exactly the points inside the smaller radius |
| Ordering.AscendingUnique | scripts/cuvslam_kpi_report.py:314-315 | a list has one ascending arrangement, so the median depends on the values alone |
| Ordering.SelectPermuted | scripts/cuvslam_kpi_report.py:320-332 | permuting a list permutes every comprehension over it |
| LevelClassifier.HistoryOrderIrrelevant | scripts/cuvslam_kpi_report.py:303-345 | permuting the history changes nothing in the result |
| LevelClassifier.TonightOrderIrrelevant | scripts/cuvslam_kpi_report.py:303-345 | permuting tonight's values changes nothing but their listing |
| LevelClassifier.UnitIrrelevant | scripts/cuvslam_kpi_report.py:303-345 | for non-count metrics one positive factor on all values changes neither status nor date |
| LevelClassifier.SignIrrelevant | scripts/cuvslam_kpi_report.py:303-345 | negating all values and flipping the better direction changes neither status nor date |
| LevelClassifier.RegressedIff | scripts/cuvslam_kpi_report.py:336-341 | regressed means: no value of tonight known, and every one beyond every level by more than the tolerance |
| LevelClassifier.BetterIff | scripts/cuvslam_kpi_report.py:336-341 | better means, given a value for tonight: no value known, and every one beyond every level on the better side by more than the tolerance |
| LevelClassifier.JudgedBetterIff | scripts/cuvslam_kpi_report.py:303-341 | the same for the verdict on any history and settings |
| LevelClassifier.LevelsAre | scripts/cuvslam_kpi_report.py:323-332 | the levels are exactly the values of the history that are known; when that is see KnownIff |
| LevelClassifier.KnownIff | scripts/cuvslam_kpi_report.py:323-330 | a value is known if and only if the dates on which a value within the tolerance was seen, and the undated such samples, are together enough, and one of these dates, if there is one, is old enough |
| LevelClassifier.ToleranceIs | scripts/cuvslam_kpi_report.py:314-319 | the tolerance is the largest of the percentage of the median, twice the median distance from it and, for the two counts, 1 |
| LevelClassifier.ClassificationExplained | scripts/cuvslam_kpi_report.py:303-345 | the whole verdict on the samples: none below three; otherwise levels, worst and best, regressed, better and the date of the first value near one of tonight's |
| LevelClassifier.OnLevelIsKnown | scripts/cuvslam_kpi_report.py:332-341 | a value of tonight within tolerance of a known level: neither regressed nor better |
| LevelClassifier.CountOffByOneIsKnown | scripts/cuvslam_kpi_report.py:318-341 | a count one off a known level is never flagged |
| LevelClassifier.NothingTonightIsRegressed | scripts/cuvslam_kpi_report.py:336-339 | with no value for tonight the code would report a regression |
| LevelClassifier.WindowBoundsIff | scripts/cuvslam_kpi_report.py:295-300 | a positive window keeps exactly the last so many pairs, or all if there are fewer; 0 keeps all, so the history is bounded by the window unless that is 0 |
| LevelClassifier.JudgeGroup | scripts/cuvslam_kpi_report.py:911-920 | the loop body for one group: none if and only if a value is missing or ClassificationExplained says none; otherwise that verdict on one value per configuration and the latest samples of each |
| LevelClassifier.GroupOrderIrrelevant | scripts/cuvslam_kpi_report.py:905-921 | the configurations of a group may come in any order |
| FeatureSelection.PicksStrongest | libs/cuda_modules/selection_v2.cpp:145-183 | before the total is reached a keypoint is selected if and only if fewer competitors of its bin than the quota precede it |
| FeatureSelection.PassedOverBecause | libs/cuda_modules/selection_v2.cpp:145-183 | the only reasons for passing a keypoint over before that |
| FeatureSelection.SelectedFrom | libs/cuda_modules/selection_v2.cpp:145-183 | the selection is an in-order subsequence, inside the borders, unmasked, on the grid |
| FeatureSelection.HowMany | libs/cuda_modules/selection_v2.cpp:145-183 | as many as the bins have room for, or as many as desired, whichever is less |
| FeatureSelection.BinsStayBalanced | libs/cuda_modules/selection_v2.cpp:117-183 | no bin ends above the larger of what it kept and what is expected |
| FeatureSelection.BinCovers | libs/cuda_modules/selection_v2.cpp:117-129 | bin b covers exactly its rectangle of the image, eight by eight, row by row |
| FeatureSelection.QuotaIs | libs/cuda_modules/selection_v2.cpp:131-140 | a bin's quota is the whole number nearest to its share of all tracks, ties up, less the tracks in its rectangle, or 0 |
| FeatureSelection.SelectionIs | libs/cuda_modules/selection_v2.cpp:112-183 | the positions selected are exactly those inside the borders, unmasked and in the rectangle of a bin with fewer such keypoints before than its quota, as long as fewer than desired were selected before |
| FeatureSelection.FullStaysFull | libs/cuda_modules/selection_v2.cpp:172-178 | returning at the cap selects the same as going on |
| FeatureSelection.CountAlive | libs/cuda_modules/selection_v2.cpp:117-129 | tracks per bin, those beyond the grid left out |
| FeatureSelection.ComputeQuotas | libs/cuda_modules/selection_v2.cpp:112-140 | every bin's quota |
| FeatureSelection.PickFeatures | libs/cuda_modules/selection_v2.cpp:145-183 | the pass over the keypoints computes the specified selection |
| FeatureSelection.SelectFeatures | libs/cuda_modules/selection_v2.cpp:112-183 | quotas and pass together: the keypoints returned are those of SelectionIs, with their number |
| ImuRange.LowerBound | libs/common/imu_measurement.cpp:27-29 | the first sample not earlier than a time |
| ImuRange.UpperBound | libs/common/imu_measurement.cpp:48-51 | the first sample later than a time |
| ImuRange.IterateSince | libs/common/imu_measurement.cpp:24-34 | visits exactly the samples from a time on, the last ones, in order |
| ImuRange.IterateFromTo | libs/common/imu_measurement.cpp:36-59 | visits exactly the samples of the closed interval, or else the first one after it, or nothing when the interval is reversed |
| ImuRange.VisitedMembers | libs/common/imu_measurement.cpp:36-59 | a query over an interval that holds a sample visits exactly the samples in it |
| ImuRange.FirstIsEarliest | libs/common/imu_measurement.cpp:53-55 | the single sample visited after an empty interval is the earliest left |
| ImuRange.AdjacentQueriesIff | libs/common/imu_measurement.cpp:36-59 | two adjacent queries visit what one over both intervals does if and only if both hold a sample or nothing follows the first |
| Statistics.StatisticalBase.Add | libs/common/statistic.h:97-106 | after any values the mean is their sum over their number, nvariance the sum of squared deviations from it |
| Statistics.StatisticalBase.Variance | libs/common/statistic.h:79-95 | the mean squared deviation from the mean of the values; none before the first |
| Statistics.OrderIrrelevant | libs/common/statistic.h:79-106 | two accumulators fed the same values in any two orders agree |
| Statistics.SumsPermuted | libs/common/statistic.h:97-106 | sums and squared deviations depend on the multiset of values |

## Left out

- CUDA: streams, kernels, solvers and textures; a device copy is an array copy, and get is stated for whatever the device holds.
- Floating point: coordinates, weights and values are reals, norms are compared squared; rounding, infinities and NaN are not modelled. Where the rational distortion model divides by zero the model reports failure.
- Integer widths: timestamps and counters are unbounded; the rig is capped at the 32 cameras the code allows.
- The fisheye model and its scalar Newton loop: they rest on the arctangent.
- Convergence of the Newton iteration: the code does not promise it; stated is what each way out guarantees.
- The frustum overlap test inside BuildCameraGraph: an arbitrary ratio per camera pair.
- FrustumIntersection.FrustumIntersectionGraph.Initialize: in Performance mode requires that a camera listed by a chosen one has the edge back, as every symmetric graph does; exactly without it the source dereferences the end of a list (LookupSucceedsIff, OneSidedLookupFails). Whether a pair is left is stated for symmetric graphs without self-edges, which BuildCameraGraph yields.
- FrustumIntersection.PerformanceKeepsSecondary: says of one run what its order of the hash maps leaves open only as two bounds.
- For which order of the hash maps the constructor's assertion can hold when several repeated depth ids tie: AssertionHoldsInEveryIff is about all orders.
- NewtonResidual.AccurateSolves: one direction; whether a lens that fails the bound still never accepts a non-solution depends on the path of the iteration.
- OdometrySetup.ConfigureFrustumGraph: covers the depth ids, the graph and the verdicts; camera sizes, poses and the settings of the trackers are not part of this model.
- The 4x4 element copies in sba.cpp: a pose or a matrix is one value.
- The bodies of the odometry calls beyond their timestamp checks, and the SLAM thread.
- ImuPipeline.Pipeline.DrainQueue: stated for a drain the IMU thread does not interrupt; interleaved steps are covered by ImuPipeline.Pipeline.Execute and the protocol's invariants.
- ImuPipeline.Pipeline.RegisterImuUntil: likewise uninterrupted; for arbitrary schedules ImuProtocol.LateOnlyBehindFrames says what is pending when a frame is tracked.
- The stop event of run_multisensor.py: it only ends a schedule early.
- ReplayRigs.CameraRigEdex.Start: takes the events as read; files, images and metadata parsing are not part of this model, and loading an image always succeeds.
- Timestamps of the other cameras of a frame: they are shifted by the same amount as the first one's.
- ReplayRigs.RepeatedCameraRigEdex.GetFrame: with the IMU callback registered; stop, which resets the repetition count, is not covered.
- Grouping of reports by CUDA version in group_level_results: the model judges one group.
- FeatureSelection.SelectFeatures: keypoints and the weight per bin are inputs, the weights summing to something positive; sorting keypoints on the device is not part of this model.
- ThreadSafeQueue, the min/max add-on of the statistics, enum conversions and configuration checks: single-branch facts.
