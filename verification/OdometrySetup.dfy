/** How the odometry constructor picks depth cameras, builds the camera graph and decides that a rig is
    badly calibrated, and why the SLAM constructor accepts the primary cameras it produces
    (libs/cuvslam/cuvslam2.cpp). */
module OdometrySetup {
  import opened CameraGraph
  import opened Assignment
  import opened FrustumIntersection

  const MAX_CAMERAS := 32  // libs/camera/rig.h

  datatype OdometryMode = Multicamera | Inertial | Mono | RGBD | Multisensor

  /** The public enumeration has no manual mode. */
  datatype MulticameraMode = PerformanceMode | PrecisionMode | ModerateMode

  datatype Config = Config(
    odometryMode: OdometryMode,
    multicameraMode: MulticameraMode,
    rgbdDepthCameraId: int,
    rgbdStereoTracking: bool,
    multisensorDepthIds: seq<int>,
    multisensorStereoTracking: bool)

  datatype Outcome =
    | Configured
    | NoCameras
    | TooManyCameras
    | RgbdIdNotInRig
    | DepthIdOutOfRange
    | DuplicateDepthId
    | BadCalibration

  function ToMode(mode: MulticameraMode): Mode {
    match mode
    case PerformanceMode => Performance
    case PrecisionMode => Precision
    case ModerateMode => Moderate
  }

  ghost predicate GoodDepthIds(ids: seq<CameraId>, numCameras: nat) {
    Distinct(ids) && forall k :: 0 <= k < |ids| ==> ids[k] < numCameras
  }

  /** The configured multisensor ids are acceptable: in range and without repetition. */
  ghost predicate MultisensorIdsOk(ids: seq<int>, numCameras: nat) {
    && (forall k :: 0 <= k < |ids| ==> 0 <= ids[k] < numCameras)
    && (forall k, l :: 0 <= k < l < |ids| ==> ids[k] != ids[l])
  }

  /** The configured depth cameras; modes without depth still name camera 0. */
  function ConfiguredDepthIds(cfg: Config): seq<int> {
    match cfg.odometryMode
    case RGBD => [cfg.rgbdDepthCameraId]
    case Multisensor => cfg.multisensorDepthIds
    case _ => [0]
  }

  predicate ConfiguredStereo(cfg: Config) {
    match cfg.odometryMode
    case RGBD => cfg.rgbdStereoTracking
    case Multisensor => cfg.multisensorStereoTracking
    case _ => false
  }

  ghost predicate DepthIdsOk(cfg: Config, numCameras: nat) {
    && (cfg.odometryMode == RGBD ==> 0 <= cfg.rgbdDepthCameraId < numCameras)
    && (cfg.odometryMode == Multisensor ==> MultisensorIdsOk(cfg.multisensorDepthIds, numCameras))
  }

  /** The ids before position k are fine and the one there is not. */
  ghost predicate FirstBad(ids: seq<int>, numCameras: nat, k: nat) {
    k < |ids| && MultisensorIdsOk(ids[..k], numCameras) && !MultisensorIdsOk(ids[..k + 1], numCameras)
  }

  method MultisensorDepthIds(ids: seq<int>, numCameras: nat) returns (outcome: Outcome, depthIds: seq<CameraId>)
    ensures outcome == Configured <==> MultisensorIdsOk(ids, numCameras)
    ensures outcome == Configured ==> depthIds == ids
    ensures outcome == Configured ==> GoodDepthIds(depthIds, numCameras) && (depthIds == [] <==> ids == [])
    ensures outcome != Configured ==>
              exists k: nat :: FirstBad(ids, numCameras, k) && (outcome == DuplicateDepthId <==> ids[k] in ids[..k])
    ensures outcome in {Configured, DepthIdOutOfRange, DuplicateDepthId}
  {
    depthIds := [];
    for k := 0 to |ids|
      invariant |depthIds| == k && forall l :: 0 <= l < k ==> depthIds[l] == ids[l] && ids[l] < numCameras
      invariant Distinct(depthIds)
    {
      var id := ids[k];
      if id < 0 || id >= numCameras {
        assert FirstBad(ids, numCameras, k);
        return DepthIdOutOfRange, depthIds;
      }
      if id in depthIds {
        assert FirstBad(ids, numCameras, k);
        return DuplicateDepthId, depthIds;
      }
      depthIds := depthIds + [id];
    }
    outcome := Configured;
  }

  /** Depth ids and the stereo-tracking choice per odometry mode. */
  method CollectDepthIds(cfg: Config, numCameras: nat)
    returns (outcome: Outcome, depthIds: seq<CameraId>, allowStereo: bool)
    requires numCameras > 0
    ensures outcome == Configured <==> DepthIdsOk(cfg, numCameras)
    ensures outcome == Configured ==> depthIds == ConfiguredDepthIds(cfg) && allowStereo == ConfiguredStereo(cfg)
    ensures outcome == Configured && cfg.odometryMode == RGBD ==>
              depthIds == [cfg.rgbdDepthCameraId] && allowStereo == cfg.rgbdStereoTracking
    ensures outcome == Configured && cfg.odometryMode == Multisensor ==>
              depthIds == cfg.multisensorDepthIds && allowStereo == cfg.multisensorStereoTracking
    ensures outcome == Configured && cfg.odometryMode in {Multicamera, Inertial, Mono} ==>
              depthIds == [0] && !allowStereo
    ensures outcome == Configured ==> GoodDepthIds(depthIds, numCameras)
    ensures outcome == Configured ==>
              (depthIds == [] <==> cfg.odometryMode == Multisensor && cfg.multisensorDepthIds == [])
    ensures outcome == Configured <==>
              && (cfg.odometryMode == RGBD ==> 0 <= cfg.rgbdDepthCameraId < numCameras)
              && (cfg.odometryMode == Multisensor ==> MultisensorIdsOk(cfg.multisensorDepthIds, numCameras))
    ensures outcome !in {BadCalibration, NoCameras, TooManyCameras}
  {
    outcome, depthIds, allowStereo := Configured, [], false;
    if cfg.odometryMode == RGBD {
      if cfg.rgbdDepthCameraId < 0 || cfg.rgbdDepthCameraId >= numCameras {
        outcome := RgbdIdNotInRig;
        return;
      }
      depthIds := [cfg.rgbdDepthCameraId];
      allowStereo := cfg.rgbdStereoTracking;
    } else if cfg.odometryMode == Multisensor {
      outcome, depthIds := MultisensorDepthIds(cfg.multisensorDepthIds, numCameras);
      allowStereo := cfg.multisensorStereoTracking;
    } else {
      depthIds := [0];
    }
  }

  /** Some pair of cameras overlaps enough to make an edge. */
  ghost predicate SomeOverlap(numCameras: nat, ratio: (nat, nat) -> real) {
    exists i: nat, j: nat :: i < j < numCameras && ratio(i, j) > RATIO_THRESHOLD
  }

  lemma {:induction false} EdgeIffOverlap(g: Graph, ratio: (nat, nat) -> real)
    requires BuiltFrom(g, ratio)
    ensures HasEdge(g) <==> SomeOverlap(|g|, ratio)
  {
    if HasEdge(g) {
      var u: CameraId, v: CameraId :| Adjacent(g, u, v);
      PartnersMeaning(ratio, u, |g|);
      if u < v {
        assert ratio(u, v) > RATIO_THRESHOLD;
      } else {
        assert ratio(v, u) > RATIO_THRESHOLD;
      }
    }
    if SomeOverlap(|g|, ratio) {
      var i: nat, j: nat :| i < j < |g| && ratio(i, j) > RATIO_THRESHOLD;
      PartnersMeaning(ratio, i, |g|);
      assert Adjacent(g, i, j);
    }
  }

  // ----- when an accepted rig keeps a stereo pair -----

  function GraphOf(numCameras: nat, ratio: (nat, nat) -> real): Graph {
    seq(numCameras, c requires 0 <= c < numCameras => NodeWith(Partners(ratio, c, numCameras)))
  }

  ghost function SettingsOf(cfg: Config, numCameras: nat): Settings
    requires DepthIdsOk(cfg, numCameras)
  {
    Settings(ToMode(cfg.multicameraMode), ConfiguredDepthIds(cfg), ConfiguredStereo(cfg), [])
  }

  ghost predicate OverlapAvoids(numCameras: nat, ratio: (nat, nat) -> real, d: nat) {
    exists i: nat, j: nat :: i < j < numCameras && i != d && j != d && ratio(i, j) > RATIO_THRESHOLD
  }

  /** Exactly one camera overlaps d, and its id is larger. */
  ghost predicate LoneOverlapAbove(numCameras: nat, ratio: (nat, nat) -> real, d: nat) {
    exists j: nat :: d < j < numCameras && OnlyOverlap(numCameras, ratio, d, j)
  }

  ghost predicate OnlyOverlap(numCameras: nat, ratio: (nat, nat) -> real, d: nat, j: nat) {
    forall k: nat :: k < numCameras ==> (Overlap(ratio, d, k) <==> k == j)
  }

  /** Does a rig keep a pair when camera d may not be a secondary? */
  ghost predicate PairBesides(mode: MulticameraMode, numCameras: nat, ratio: (nat, nat) -> real, d: nat) {
    if mode == PrecisionMode then SomeOverlap(numCameras, ratio)
    else OverlapAvoids(numCameras, ratio, d) || LoneOverlapAbove(numCameras, ratio, d)
  }

  lemma {:induction false} EdgeAvoidsIff(g: Graph, ratio: (nat, nat) -> real, d: CameraId)
    requires BuiltFrom(g, ratio)
    ensures EdgeAvoids(g, d) <==> OverlapAvoids(|g|, ratio, d)
  {
    if EdgeAvoids(g, d) {
      var u: CameraId, v: CameraId :| u != d && v != d && Adjacent(g, u, v);
      PartnersMeaning(ratio, u, |g|);
      if u < v {
        assert ratio(u, v) > RATIO_THRESHOLD;
      } else {
        assert ratio(v, u) > RATIO_THRESHOLD;
      }
    }
    if OverlapAvoids(|g|, ratio, d) {
      var i: nat, j: nat :| i < j < |g| && i != d && j != d && ratio(i, j) > RATIO_THRESHOLD;
      PartnersMeaning(ratio, i, |g|);
      assert Adjacent(g, i, j);
    }
  }

  lemma {:induction false} SingletonIff(s: seq<CameraId>, v: CameraId)
    requires Distinct(s)
    ensures s == [v] <==> forall x: CameraId :: x in s <==> x == v
  {
    if forall x: CameraId :: x in s <==> x == v {
      assert v in s;
      assert forall k :: 0 <= k < |s| ==> s[k] in s;
      assert s[0] == s[|s| - 1];
    }
  }

  lemma {:induction false} LonePartnerIff(g: Graph, ratio: (nat, nat) -> real, d: CameraId)
    requires BuiltFrom(g, ratio) && d < |g|
    ensures LonePartnerAbove(g, d) <==> LoneOverlapAbove(|g|, ratio, d)
  {
    forall v: CameraId ensures Neighbours(g, d) == [v] <==> v < |g| && OnlyOverlap(|g|, ratio, d, v) {
      OnlyPartnerIff(g, ratio, d, v);
    }
  }

  lemma {:induction false} OnlyPartnerIff(g: Graph, ratio: (nat, nat) -> real, d: CameraId, v: CameraId)
    requires BuiltFrom(g, ratio) && d < |g|
    ensures Neighbours(g, d) == [v] <==> v < |g| && OnlyOverlap(|g|, ratio, d, v)
  {
    PartnersMeaning(ratio, d, |g|);
    var p := Partners(ratio, d, |g|);
    assert Distinct(Ids(p));
    SingletonIff(Ids(p), v);
    if Ids(p) == [v] {
      assert v in Ids(p);
    }
  }

  /** The condition on the graph as one on the overlaps: with nothing stripped, and with one camera
      stripped, which is how every mode but Multisensor ends. */
  lemma {:induction false} PairRemainsByOverlap(cfg: Config, numCameras: nat, ratio: (nat, nat) -> real)
    requires numCameras > 0 && DepthIdsOk(cfg, numCameras)
    ensures ConfiguredStereo(cfg) || ConfiguredDepthIds(cfg) == [] ==>
              (PairRemains(GraphOf(numCameras, ratio), SettingsOf(cfg, numCameras)) <==> SomeOverlap(numCameras, ratio))
    ensures !ConfiguredStereo(cfg) && |ConfiguredDepthIds(cfg)| == 1 ==>
              (PairRemains(GraphOf(numCameras, ratio), SettingsOf(cfg, numCameras)) <==>
               PairBesides(cfg.multicameraMode, numCameras, ratio, ConfiguredDepthIds(cfg)[0]))
  {
    var g, settings := GraphOf(numCameras, ratio), SettingsOf(cfg, numCameras);
    BuiltGraphIsSound(g, ratio);
    EdgeIffOverlap(g, ratio);
    if ConfiguredStereo(cfg) || ConfiguredDepthIds(cfg) == [] {
      assert StripSet(settings) == {};
      PairRemainsUnstripped(g, settings);
    } else if |ConfiguredDepthIds(cfg)| == 1 {
      var d: CameraId := settings.depthIds[0];
      assert StripSet(settings) == {d};
      PairRemainsBesides(g, settings, d);
      EdgeAvoidsIff(g, ratio, d);
      LonePartnerIff(g, ratio, d);
    }
  }

  // ----- the choice in terms of the overlap ratios alone -----

  /** The ratio two cameras share; the pair is evaluated once, smaller index first. */
  function Shared(ratio: (nat, nat) -> real, u: nat, v: nat): real {
    if u < v then ratio(u, v) else ratio(v, u)
  }

  ghost predicate Overlapping(numCameras: nat, ratio: (nat, nat) -> real, u: nat, v: nat) {
    u < numCameras && v < numCameras && u != v && Shared(ratio, u, v) > 0.5
  }

  ghost function PartnersOf(numCameras: nat, ratio: (nat, nat) -> real, c: nat): set<nat> {
    set v: nat | 0 <= v < numCameras && Overlapping(numCameras, ratio, c, v)
  }

  /** Visited earlier: fewer partners, or as many and the smaller index. */
  ghost predicate VisitedBefore(numCameras: nat, ratio: (nat, nat) -> real, a: nat, b: nat) {
    var m, n := |PartnersOf(numCameras, ratio, a)|, |PartnersOf(numCameras, ratio, b)|;
    m < n || (m == n && a < b)
  }

  /** Chosen unless an earlier visited chosen camera overlaps it. */
  ghost predicate ChosenByOverlap(numCameras: nat, ratio: (nat, nat) -> real, c: nat)
    decreases |PartnersOf(numCameras, ratio, c)|, c
  {
    c < numCameras && forall d: nat :: Overlapping(numCameras, ratio, d, c) && VisitedBefore(numCameras, ratio, d, c) ==>
      !ChosenByOverlap(numCameras, ratio, d)
  }

  lemma {:induction false} AdjacentIffOverlapping(numCameras: nat, ratio: (nat, nat) -> real, u: CameraId, v: CameraId)
    ensures Adjacent(GraphOf(numCameras, ratio), u, v) <==> Overlapping(numCameras, ratio, u, v)
    ensures Adjacent(GraphOf(numCameras, ratio), u, v) ==> Ratio(GraphOf(numCameras, ratio), u, v) == Shared(ratio, u, v)
  {
    var g := GraphOf(numCameras, ratio);
    BuiltEdges(g, ratio);
  }

  lemma {:induction false} CountDistinct(s: seq<CameraId>, t: set<nat>)
    requires Distinct(s) && forall x: nat :: x in t <==> x in s
    ensures |t| == |s|
  {
    if s == [] {
      assert t == {};
    } else {
      assert s == [s[0]] + s[1..];
      assert s[0] !in s[1..];
      CountDistinct(s[1..], t - {s[0]});
    }
  }

  lemma {:induction false} DegreeIsPartners(numCameras: nat, ratio: (nat, nat) -> real, c: CameraId)
    requires c < numCameras
    ensures GraphOf(numCameras, ratio)[c].degree == |PartnersOf(numCameras, ratio, c)|
  {
    var g := GraphOf(numCameras, ratio);
    BuiltGraphIsSound(g, ratio);
    forall v: nat ensures v in PartnersOf(numCameras, ratio, c) <==> v in Neighbours(g, c) {
      AdjacentIffOverlapping(numCameras, ratio, c, v);
    }
    CountDistinct(Neighbours(g, c), PartnersOf(numCameras, ratio, c));
  }

  lemma {:induction false} ChosenIffByOverlap(numCameras: nat, ratio: (nat, nat) -> real, c: CameraId)
    requires c < numCameras
    ensures Chosen(GraphOf(numCameras, ratio), c) <==> ChosenByOverlap(numCameras, ratio, c)
    decreases |PartnersOf(numCameras, ratio, c)|, c
  {
    var g := GraphOf(numCameras, ratio);
    DegreeIsPartners(numCameras, ratio, c);
    forall d: CameraId | d < numCameras
      ensures Precedes(g, d, c) && Adjacent(g, d, c) <==>
              VisitedBefore(numCameras, ratio, d, c) && Overlapping(numCameras, ratio, d, c)
      ensures Precedes(g, d, c) && Adjacent(g, d, c) ==> (Chosen(g, d) <==> ChosenByOverlap(numCameras, ratio, d))
    {
      DegreeIsPartners(numCameras, ratio, d);
      AdjacentIffOverlapping(numCameras, ratio, d, c);
      if Precedes(g, d, c) && Adjacent(g, d, c) {
        ChosenIffByOverlap(numCameras, ratio, d);
      }
    }
  }

  /** A camera that may be somebody's secondary in the end: depth cameras only if stereo tracking is on. */
  ghost predicate MayBeSecondary(cfg: Config, v: nat) {
    ConfiguredStereo(cfg) || v !in ConfiguredDepthIds(cfg)
  }

  ghost predicate PartnerLeft(cfg: Config, numCameras: nat, ratio: (nat, nat) -> real, c: nat) {
    exists v: nat :: Overlapping(numCameras, ratio, c, v) && MayBeSecondary(cfg, v)
  }

  /** Chosen cameras overlapping v compete for it. */
  ghost predicate Competes(numCameras: nat, ratio: (nat, nat) -> real, p: nat, v: nat) {
    Overlapping(numCameras, ratio, p, v) && ChosenByOverlap(numCameras, ratio, p)
  }

  ghost predicate Wins(numCameras: nat, ratio: (nat, nat) -> real, c: nat, v: nat) {
    && Competes(numCameras, ratio, c, v)
    && forall p: nat :: Competes(numCameras, ratio, p, v) && p != c ==> Shared(ratio, p, v) < Shared(ratio, c, v)
  }

  ghost predicate MayWin(numCameras: nat, ratio: (nat, nat) -> real, c: nat, v: nat) {
    && Competes(numCameras, ratio, c, v)
    && forall p: nat :: Competes(numCameras, ratio, p, v) ==> Shared(ratio, p, v) <= Shared(ratio, c, v)
  }

  ghost predicate WinsSome(cfg: Config, numCameras: nat, ratio: (nat, nat) -> real, c: nat) {
    exists v: nat :: MayBeSecondary(cfg, v) && Wins(numCameras, ratio, c, v)
  }

  ghost predicate MayWinSome(cfg: Config, numCameras: nat, ratio: (nat, nat) -> real, c: nat) {
    exists v: nat :: MayBeSecondary(cfg, v) && MayWin(numCameras, ratio, c, v)
  }

  lemma {:induction false} CandidateIffCompetes(numCameras: nat, ratio: (nat, nat) -> real, p: CameraId, v: CameraId)
    ensures CandidateFor(GraphOf(numCameras, ratio), p, v) <==> Competes(numCameras, ratio, p, v)
    ensures Competes(numCameras, ratio, p, v) ==>
              Adjacent(GraphOf(numCameras, ratio), v, p) && Ratio(GraphOf(numCameras, ratio), v, p) == Shared(ratio, p, v)
  {
    AdjacentIffOverlapping(numCameras, ratio, p, v);
    AdjacentIffOverlapping(numCameras, ratio, v, p);
    if p < numCameras {
      ChosenIffByOverlap(numCameras, ratio, p);
    }
  }

  lemma {:induction false} BestByOverlap(numCameras: nat, ratio: (nat, nat) -> real, c: CameraId, v: CameraId)
    ensures SoleBest(GraphOf(numCameras, ratio), c, v) <==> Wins(numCameras, ratio, c, v)
    ensures AmongBest(GraphOf(numCameras, ratio), c, v) <==> MayWin(numCameras, ratio, c, v)
  {
    var g := GraphOf(numCameras, ratio);
    forall p: CameraId
      ensures CandidateFor(g, p, v) <==> Competes(numCameras, ratio, p, v)
      ensures Competes(numCameras, ratio, p, v) ==> Adjacent(g, v, p) && Ratio(g, v, p) == Shared(ratio, p, v)
    {
      CandidateIffCompetes(numCameras, ratio, p, v);
    }
  }

  lemma {:induction false} StrippedIff(cfg: Config, numCameras: nat, v: CameraId)
    requires DepthIdsOk(cfg, numCameras)
    ensures v !in StripSet(SettingsOf(cfg, numCameras)) <==> MayBeSecondary(cfg, v)
  {
  }

  lemma {:induction false} KeepsByOverlap(cfg: Config, numCameras: nat, ratio: (nat, nat) -> real, c: CameraId)
    requires DepthIdsOk(cfg, numCameras)
    ensures SurelyKeeps(GraphOf(numCameras, ratio), SettingsOf(cfg, numCameras), c) <==> WinsSome(cfg, numCameras, ratio, c)
    ensures MayKeep(GraphOf(numCameras, ratio), SettingsOf(cfg, numCameras), c) <==> MayWinSome(cfg, numCameras, ratio, c)
  {
    forall v: CameraId
      ensures v !in StripSet(SettingsOf(cfg, numCameras)) <==> MayBeSecondary(cfg, v)
      ensures SoleBest(GraphOf(numCameras, ratio), c, v) <==> Wins(numCameras, ratio, c, v)
      ensures AmongBest(GraphOf(numCameras, ratio), c, v) <==> MayWin(numCameras, ratio, c, v)
    {
      StrippedIff(cfg, numCameras, v);
      BestByOverlap(numCameras, ratio, c, v);
    }
  }

  lemma {:induction false} PartnerByOverlap(cfg: Config, numCameras: nat, ratio: (nat, nat) -> real, c: CameraId)
    requires DepthIdsOk(cfg, numCameras)
    ensures PartnerOutside(GraphOf(numCameras, ratio), StripSet(SettingsOf(cfg, numCameras)), c) <==>
            PartnerLeft(cfg, numCameras, ratio, c)
  {
    forall v: CameraId
      ensures v !in StripSet(SettingsOf(cfg, numCameras)) <==> MayBeSecondary(cfg, v)
      ensures Adjacent(GraphOf(numCameras, ratio), c, v) <==> Overlapping(numCameras, ratio, c, v)
    {
      StrippedIff(cfg, numCameras, v);
      AdjacentIffOverlapping(numCameras, ratio, c, v);
    }
  }

  /** Whether camera c ends primary, mode by mode, from configuration and overlap ratios. */
  ghost predicate PrimaryByOverlap(cfg: Config, numCameras: nat, ratio: (nat, nat) -> real, c: CameraId, primary: bool) {
    match cfg.multicameraMode
    case PrecisionMode => primary <==> c in ConfiguredDepthIds(cfg) || PartnerLeft(cfg, numCameras, ratio, c)
    case ModerateMode =>
      primary <==>
      c in ConfiguredDepthIds(cfg) || (ChosenByOverlap(numCameras, ratio, c) && PartnerLeft(cfg, numCameras, ratio, c))
    case PerformanceMode =>
      && (c in ConfiguredDepthIds(cfg) || WinsSome(cfg, numCameras, ratio, c) ==> primary)
      && (primary ==> c in ConfiguredDepthIds(cfg) || MayWinSome(cfg, numCameras, ratio, c))
  }

  ghost predicate PrimariesByOverlap(cfg: Config, numCameras: nat, ratio: (nat, nat) -> real, primaries: seq<CameraId>) {
    forall c: CameraId :: PrimaryByOverlap(cfg, numCameras, ratio, c, c in primaries)
  }

  /** What the graph constructor ensures of its primaries. */
  ghost predicate PrimaryByGraph(g: Graph, settings: Settings, c: CameraId, primary: bool) {
    if settings.mode == Performance then
      && (c in settings.depthIds || SurelyKeeps(g, settings, c) ==> primary)
      && (primary ==> c in settings.depthIds || MayKeep(g, settings, c))
    else primary <==> c in settings.depthIds || KeepsSecondary(g, settings, c)
  }

  lemma {:induction false} ChosenWithPartner(cfg: Config, numCameras: nat, ratio: (nat, nat) -> real, c: CameraId)
    requires DepthIdsOk(cfg, numCameras) && cfg.multicameraMode != PerformanceMode
    ensures KeepsSecondary(GraphOf(numCameras, ratio), SettingsOf(cfg, numCameras), c) <==>
            (cfg.multicameraMode == ModerateMode ==> ChosenByOverlap(numCameras, ratio, c)) &&
            PartnerLeft(cfg, numCameras, ratio, c)
  {
    PartnerByOverlap(cfg, numCameras, ratio, c);
    if c < numCameras {
      ChosenIffByOverlap(numCameras, ratio, c);
    }
  }

  lemma {:induction false} GraphToOverlap(cfg: Config, numCameras: nat, ratio: (nat, nat) -> real, c: CameraId, primary: bool)
    requires DepthIdsOk(cfg, numCameras)
    requires PrimaryByGraph(GraphOf(numCameras, ratio), SettingsOf(cfg, numCameras), c, primary)
    ensures PrimaryByOverlap(cfg, numCameras, ratio, c, primary)
  {
    if cfg.multicameraMode == PerformanceMode {
      KeepsByOverlap(cfg, numCameras, ratio, c);
    } else {
      ChosenWithPartner(cfg, numCameras, ratio, c);
    }
  }

  /** Whether camera p ends with v among its secondaries, mode by mode, from configuration and overlap ratios. */
  ghost predicate ListedByOverlap(cfg: Config, numCameras: nat, ratio: (nat, nat) -> real, p: CameraId, v: CameraId, listed: bool) {
    if !MayBeSecondary(cfg, v) then !listed
    else
      match cfg.multicameraMode
      case PrecisionMode => listed <==> Overlapping(numCameras, ratio, p, v)
      case ModerateMode => listed <==> Competes(numCameras, ratio, p, v)
      case PerformanceMode =>
        (Wins(numCameras, ratio, p, v) ==> listed) && (listed ==> MayWin(numCameras, ratio, p, v))
  }

  lemma {:induction false} ListedToOverlap(cfg: Config, numCameras: nat, ratio: (nat, nat) -> real, p: CameraId, v: CameraId,
                                           listed: bool)
    requires DepthIdsOk(cfg, numCameras)
    requires ListedByGraph(GraphOf(numCameras, ratio), SettingsOf(cfg, numCameras), p, v, listed)
    ensures ListedByOverlap(cfg, numCameras, ratio, p, v, listed)
  {
    StrippedIff(cfg, numCameras, v);
    AdjacentIffOverlapping(numCameras, ratio, p, v);
    BestByOverlap(numCameras, ratio, p, v);
    if p < numCameras {
      ChosenIffByOverlap(numCameras, ratio, p);
    }
  }

  /** Every secondary in the end: whose it is, and in performance mode that each camera that somebody competes for
      and that may be a secondary has exactly one primary. */
  ghost predicate SecondariesByOverlap(cfg: Config, numCameras: nat, ratio: (nat, nat) -> real, lists: Lists) {
    && (forall p: CameraId, v: CameraId :: ListedByOverlap(cfg, numCameras, ratio, p, v, Lists?(lists, p, v)))
    && (cfg.multicameraMode == PerformanceMode ==>
          && (forall p: CameraId, q: CameraId, v: CameraId :: Lists?(lists, p, v) && Lists?(lists, q, v) ==> p == q)
          && forall q: CameraId, v: CameraId ::
               Competes(numCameras, ratio, q, v) && MayBeSecondary(cfg, v) ==> exists p: CameraId :: Lists?(lists, p, v))
  }

  lemma {:induction false} SharedOutByOverlap(cfg: Config, numCameras: nat, ratio: (nat, nat) -> real, lists: Lists)
    requires DepthIdsOk(cfg, numCameras)
    requires SharedOut(GraphOf(numCameras, ratio), SettingsOf(cfg, numCameras), lists)
    ensures forall p: CameraId, q: CameraId, v: CameraId :: Lists?(lists, p, v) && Lists?(lists, q, v) ==> p == q
    ensures forall q: CameraId, v: CameraId ::
              Competes(numCameras, ratio, q, v) && MayBeSecondary(cfg, v) ==> exists p: CameraId :: Lists?(lists, p, v)
  {
    forall q: CameraId, v: CameraId | Competes(numCameras, ratio, q, v) && MayBeSecondary(cfg, v)
      ensures exists p: CameraId :: Lists?(lists, p, v)
    {
      StrippedIff(cfg, numCameras, v);
      CandidateIffCompetes(numCameras, ratio, q, v);
      assert HasCandidate(GraphOf(numCameras, ratio), v);
    }
  }

  lemma {:induction false} ListsToOverlap(cfg: Config, numCameras: nat, ratio: (nat, nat) -> real, lists: Lists)
    requires DepthIdsOk(cfg, numCameras)
    requires forall p: CameraId, v: CameraId ::
               ListedByGraph(GraphOf(numCameras, ratio), SettingsOf(cfg, numCameras), p, v, Lists?(lists, p, v))
    requires cfg.multicameraMode == PerformanceMode ==>
               SharedOut(GraphOf(numCameras, ratio), SettingsOf(cfg, numCameras), lists)
    ensures SecondariesByOverlap(cfg, numCameras, ratio, lists)
  {
    forall p: CameraId, v: CameraId ensures ListedByOverlap(cfg, numCameras, ratio, p, v, Lists?(lists, p, v)) {
      ListedToOverlap(cfg, numCameras, ratio, p, v, Lists?(lists, p, v));
    }
    if cfg.multicameraMode == PerformanceMode {
      SharedOutByOverlap(cfg, numCameras, ratio, lists);
    }
  }

  lemma {:induction false} SuitsTheConstructor(g: Graph, ratio: (nat, nat) -> real)
    requires BuiltFrom(g, ratio)
    ensures g == GraphOf(|g|, ratio) && Symmetric(g) && Loopless(g) && EdgesBack(g)
    ensures HasEdge(g) <==> SomeOverlap(|g|, ratio)
  {
    BuiltGraphIsSound(g, ratio);
    EdgeIffOverlap(g, ratio);
  }

  /** The graph of the rig, the graph constructor on it, and is_valid. */
  method SelectPrimaries(cfg: Config, numCameras: nat, ratio: (nat, nat) -> real, depthIds: seq<CameraId>,
                         allowStereo: bool, fig: FrustumIntersectionGraph) returns (valid: bool, assertHeld: bool)
    requires numCameras > 0 && DepthIdsOk(cfg, numCameras) && GoodDepthIds(depthIds, numCameras)
    requires depthIds == ConfiguredDepthIds(cfg) && allowStereo == ConfiguredStereo(cfg)
    modifies fig
    ensures assertHeld
    ensures valid <==> depthIds != [] || SomeOverlap(numCameras, ratio)
    ensures valid ==> AcceptedPrimaries(fig.primaryCameras, numCameras)
    ensures Established(SettingsOf(cfg, numCameras), fig.primaryCameras, fig.secondaryFromPrimary)
    ensures forall c: CameraId ::
              PrimaryByGraph(GraphOf(numCameras, ratio), SettingsOf(cfg, numCameras), c, c in fig.primaryCameras)
    ensures SomeSecondary(fig.secondaryFromPrimary) <==>
            PairRemains(GraphOf(numCameras, ratio), SettingsOf(cfg, numCameras))
    ensures SecondariesByOverlap(cfg, numCameras, ratio, fig.secondaryFromPrimary)
  {
    var g := BuildCameraGraph(numCameras, ratio);
    SuitsTheConstructor(g, ratio);
    var settings := Settings(ToMode(cfg.multicameraMode), depthIds, allowStereo, []);
    assert settings == SettingsOf(cfg, numCameras);
    var status;
    ghost var primaries0, lists0;
    status, assertHeld, primaries0, lists0 := fig.Initialize(g, settings);
    assert forall k :: 0 <= k < |fig.primaryCameras| ==> fig.primaryCameras[k] < numCameras by {
      PrimariesInRig(g, settings, primaries0, lists0, fig.primaryCameras, fig.secondaryFromPrimary);
    }
    assert SecondariesByOverlap(cfg, numCameras, ratio, fig.secondaryFromPrimary) by {
      ListsToOverlap(cfg, numCameras, ratio, fig.secondaryFromPrimary);
    }
    valid := fig.IsValid();
  }

  /** The part of the odometry constructor up to the calibration verdict. The verdict "needs at least one
      stereo pair for Multicamera or Inertial mode" can never be given in those modes: camera 0 always
      counts as a depth camera there. It falls exactly on Multisensor without depth cameras on a rig
      without an overlapping pair. What the verdict is about, that a stereo pair is left, can fail on an
      accepted rig; the ensures clauses say exactly when it holds. The inner assertion of the graph
      constructor always holds. */
  method ConfigureFrustumGraph(cfg: Config, numCameras: nat, ratio: (nat, nat) -> real, fig: FrustumIntersectionGraph)
    returns (outcome: Outcome, assertHeld: bool)
    modifies fig
    ensures outcome == NoCameras <==> numCameras == 0
    ensures outcome == TooManyCameras <==> numCameras > 32
    ensures outcome in {RgbdIdNotInRig, DepthIdOutOfRange, DuplicateDepthId} <==>
              0 < numCameras <= MAX_CAMERAS && !DepthIdsOk(cfg, numCameras)
    ensures outcome == BadCalibration <==>
              && 0 < numCameras <= MAX_CAMERAS
              && cfg.odometryMode == Multisensor && cfg.multisensorDepthIds == []
              && !SomeOverlap(numCameras, ratio)
    ensures outcome == Configured ==> AcceptedPrimaries(fig.primaryCameras, numCameras)
    ensures outcome == Configured ==>
              && DepthIdsOk(cfg, numCameras)
              && Established(SettingsOf(cfg, numCameras), fig.primaryCameras, fig.secondaryFromPrimary)
    ensures outcome == Configured && cfg.multicameraMode != PerformanceMode ==> forall c: CameraId ::
              c in fig.primaryCameras <==>
              c in ConfiguredDepthIds(cfg) || KeepsSecondary(GraphOf(numCameras, ratio), SettingsOf(cfg, numCameras), c)
    ensures outcome == Configured && cfg.multicameraMode == PerformanceMode ==> forall c: CameraId ::
              var g, settings := GraphOf(numCameras, ratio), SettingsOf(cfg, numCameras);
              && (c in ConfiguredDepthIds(cfg) || SurelyKeeps(g, settings, c) ==> c in fig.primaryCameras)
              && (c in fig.primaryCameras ==> c in ConfiguredDepthIds(cfg) || MayKeep(g, settings, c))
    ensures outcome == Configured ==> PrimariesByOverlap(cfg, numCameras, ratio, fig.primaryCameras)
    ensures outcome == Configured ==> SecondariesByOverlap(cfg, numCameras, ratio, fig.secondaryFromPrimary)
    ensures outcome == Configured ==> (SomeSecondary(fig.secondaryFromPrimary) <==>
              PairRemains(GraphOf(numCameras, ratio), SettingsOf(cfg, numCameras)))
    ensures outcome == Configured && (ConfiguredStereo(cfg) || ConfiguredDepthIds(cfg) == []) ==>
              (SomeSecondary(fig.secondaryFromPrimary) <==> SomeOverlap(numCameras, ratio))
    ensures outcome == Configured && !ConfiguredStereo(cfg) && |ConfiguredDepthIds(cfg)| == 1 ==>
              (SomeSecondary(fig.secondaryFromPrimary) <==>
               PairBesides(cfg.multicameraMode, numCameras, ratio, ConfiguredDepthIds(cfg)[0]))
    ensures assertHeld
  {
    assertHeld := true;
    if numCameras == 0 {
      return NoCameras, true;
    }
    if numCameras > MAX_CAMERAS {
      return TooManyCameras, true;
    }
    var depthIds, allowStereo;
    outcome, depthIds, allowStereo := CollectDepthIds(cfg, numCameras);
    if outcome != Configured {
      return;
    }
    var valid;
    valid, assertHeld := SelectPrimaries(cfg, numCameras, ratio, depthIds, allowStereo, fig);
    PairRemainsByOverlap(cfg, numCameras, ratio);
    forall c: CameraId ensures PrimaryByOverlap(cfg, numCameras, ratio, c, c in fig.primaryCameras) {
      GraphToOverlap(cfg, numCameras, ratio, c, c in fig.primaryCameras);
    }
    if !valid {
      outcome := BadCalibration;
    }
  }

  lemma {:induction false} PrimariesInRig(g: Graph, settings: Settings, primaries0: seq<CameraId>, lists0: Lists,
                       primaries: seq<CameraId>, lists: Lists)
    requires Symmetric(g) && Loopless(g) && settings.mode != Manual
    requires ModeResult(g, settings, primaries0, lists0)
    requires Finished(settings, primaries0, lists0, primaries, lists)
    requires forall k :: 0 <= k < |settings.depthIds| ==> settings.depthIds[k] < |g|
    ensures forall k :: 0 <= k < |primaries| ==> primaries[k] < |g|
  {
    var stripped := Stripped(lists0, StripSet(settings));
    var survivors := Survivors(primaries0, stripped);
    AmongMembers(primaries0, Idle(primaries0, stripped));
    NewDepthMembers(survivors, settings.depthIds);
    forall k | 0 <= k < |primaries| ensures primaries[k] < |g| {
      assert primaries[k] in primaries;
      assert primaries[k] in primaries0 || primaries[k] in settings.depthIds;
    }
  }

  // ----- the SLAM constructor's check of the primaries -----

  ghost predicate AcceptedPrimaries(primaries: seq<CameraId>, numCameras: nat) {
    primaries != [] && Distinct(primaries) && forall k :: 0 <= k < |primaries| ==> primaries[k] < numCameras
  }

  datatype PrimaryCheck = Accepted | NoPrimary | NotInRig | ListedTwice

  /** CheckPrimaryCameras, with its table of cameras already seen. */
  method CheckPrimaryCameras(primaries: seq<CameraId>, numCameras: nat) returns (check: PrimaryCheck)
    ensures check == Accepted <==> AcceptedPrimaries(primaries, numCameras)
    ensures check == NoPrimary <==> primaries == []
  {
    if primaries == [] {
      return NoPrimary;
    }
    var seen := new bool[numCameras](_ => false);
    for k := 0 to |primaries|
      invariant forall l :: 0 <= l < k ==> primaries[l] < numCameras && seen[primaries[l]]
      invariant forall c :: 0 <= c < numCameras && seen[c] ==> exists l :: 0 <= l < k && primaries[l] == c
      invariant Distinct(primaries[..k])
    {
      if primaries[k] >= numCameras {
        return NotInRig;
      }
      if seen[primaries[k]] {
        return ListedTwice;
      }
      seen[primaries[k]] := true;
    }
    assert primaries[..|primaries|] == primaries;
    return Accepted;
  }

  /** A tracker that hands the odometry's primaries to SLAM is never turned away by that check. */
  method TrackerPrimariesAccepted(cfg: Config, numCameras: nat, ratio: (nat, nat) -> real)
    returns (outcome: Outcome, check: PrimaryCheck)
    ensures outcome == Configured ==> check == Accepted
  {
    var fig := new FrustumIntersectionGraph();
    var held;
    outcome, held := ConfigureFrustumGraph(cfg, numCameras, ratio, fig);
    check := CheckPrimaryCameras(fig.primaryCameras, numCameras);
  }

  /** Cameras 1 and 2 each overlap camera 0 only: the rig is accepted in Multicamera mode, and no camera
      is left with a secondary. */
  method OverlappingRigWithoutPair(mode: MulticameraMode, fig: FrustumIntersectionGraph) returns (outcome: Outcome)
    requires mode != PrecisionMode
    modifies fig
    ensures outcome == Configured && !SomeSecondary(fig.secondaryFromPrimary)
  {
    var cfg := Config(Multicamera, mode, 0, false, [], false);
    var ratio := (i: nat, j: nat) => if i == 0 then 0.6 else 0.0;
    var held;
    outcome, held := ConfigureFrustumGraph(cfg, 3, ratio, fig);
    assert Overlap(ratio, 0, 1) && Overlap(ratio, 0, 2);
    assert !LoneOverlapAbove(3, ratio, 0);
  }

  /** Camera 2 overlaps camera 0 by 0.6 and camera 1 by 0.9: both are chosen, and camera 1 is the one primary. */
  method LargerOverlapWins(fig: FrustumIntersectionGraph) returns (outcome: Outcome)
    modifies fig
    ensures outcome == Configured
    ensures forall c: CameraId :: c in fig.primaryCameras <==> c == 1
  {
    var cfg := Config(Multisensor, PerformanceMode, 0, false, [], false);
    var ratio := (i: nat, j: nat) => if j != 2 then 0.0 else if i == 0 then 0.6 else 0.9;
    var held;
    outcome, held := ConfigureFrustumGraph(cfg, 3, ratio, fig);
    assert SomeOverlap(3, ratio) by {
      assert ratio(1, 2) > RATIO_THRESHOLD;
    }
    LargerOverlap(cfg, ratio);
    assert forall c: CameraId :: PrimaryByOverlap(cfg, 3, ratio, c, c in fig.primaryCameras);
  }

  lemma {:induction false} LargerOverlap(cfg: Config, ratio: (nat, nat) -> real)
    requires cfg == Config(Multisensor, PerformanceMode, 0, false, [], false)
    requires forall i: nat, j: nat :: ratio(i, j) == if j != 2 then 0.0 else if i == 0 then 0.6 else 0.9
    ensures WinsSome(cfg, 3, ratio, 1)
    ensures forall c: CameraId :: MayWinSome(cfg, 3, ratio, c) ==> c == 1
  {
    assert PartnersOf(3, ratio, 0) == {2} && PartnersOf(3, ratio, 1) == {2} && PartnersOf(3, ratio, 2) == {0, 1};
    assert VisitedBefore(3, ratio, 0, 2) && !VisitedBefore(3, ratio, 2, 0) && !VisitedBefore(3, ratio, 2, 1);
    assert ChosenByOverlap(3, ratio, 0) && ChosenByOverlap(3, ratio, 1);
    assert !ChosenByOverlap(3, ratio, 2);
    assert Competes(3, ratio, 0, 2) && Competes(3, ratio, 1, 2) && Wins(3, ratio, 1, 2);
    assert MayBeSecondary(cfg, 2);
  }

  /** A depth camera named twice on a rig without overlap trips the constructor's assertion. */
  method DuplicateDepthIdTripsAssertion() returns (assertHeld: bool)
    ensures !assertHeld
  {
    var fig := new FrustumIntersectionGraph();
    var settings := Settings(Moderate, [0, 0], true, []);
    var g := [NodeWith([])];
    ghost var primaries0, lists0;
    var status;
    status, assertHeld, primaries0, lists0 := fig.Initialize(g, settings);
    assert settings.depthIds[0] == settings.depthIds[1];
  }

}
