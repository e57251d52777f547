/** The timestamp contract that Odometry::RegisterImuMeasurement and Odometry::Track enforce
    (libs/cuvslam/cuvslam2.cpp). Everything else those calls do is left out. */
module OdometryClock {

  const INT64_MIN: int := -0x8000_0000_0000_0000

  type Timestamp = t: int | INT64_MIN <= t witness 0

  datatype Clock = Clock(
    lastTimestamp: Timestamp,
    lastFrameTimestamp: Timestamp,  // meaningful once there are previous images
    frameId: nat,
    hasPreviousImages: bool)

  const InitialClock := Clock(INT64_MIN, 0, 0, false)

  datatype Verdict = Accepted | FusionDisabled | WrongSensor | NonMonotonic | FrameNotIncreasing

  function RegisterVerdict(c: Clock, t: Timestamp): Verdict {
    if t < c.lastTimestamp then NonMonotonic else Accepted
  }

  function AfterRegister(c: Clock, t: Timestamp): Clock {
    if RegisterVerdict(c, t) == Accepted then c.(lastTimestamp := t) else c
  }

  function TrackVerdict(c: Clock, t: Timestamp): Verdict {
    if t < c.lastTimestamp then NonMonotonic
    else if c.hasPreviousImages && t <= c.lastFrameTimestamp then FrameNotIncreasing
    else Accepted
  }

  /** A refused frame still consumes a frame id. */
  function AfterTrack(c: Clock, t: Timestamp): Clock {
    if TrackVerdict(c, t) == Accepted then Clock(t, t, c.frameId + 1, true) else c.(frameId := c.frameId + 1)
  }

  class Odometry {
    var lastTimestamp: Timestamp
    var lastFrameTimestamp: Timestamp
    var frameId: nat
    var hasPreviousImages: bool
    const imuFusionEnabled: bool

    function State(): Clock
      reads this
    {
      Clock(lastTimestamp, lastFrameTimestamp, frameId, hasPreviousImages)
    }

    constructor (imuFusionEnabled: bool)
      ensures State() == InitialClock && this.imuFusionEnabled == imuFusionEnabled
    {
      this.imuFusionEnabled := imuFusionEnabled;
      lastTimestamp, lastFrameTimestamp, frameId, hasPreviousImages := INT64_MIN, 0, 0, false;
    }

    method RegisterImuMeasurement(sensorIndex: nat, t: Timestamp) returns (verdict: Verdict)
      modifies this
      ensures verdict == FusionDisabled <==> !imuFusionEnabled
      ensures verdict == WrongSensor <==> imuFusionEnabled && sensorIndex != 0
      ensures imuFusionEnabled && sensorIndex == 0 ==>
                verdict == RegisterVerdict(old(State()), t) && State() == AfterRegister(old(State()), t)
      ensures verdict != Accepted ==> State() == old(State())
      ensures verdict == NonMonotonic <==> imuFusionEnabled && sensorIndex == 0 && t < old(lastTimestamp)
      ensures verdict in {Accepted, FusionDisabled, WrongSensor, NonMonotonic}
      ensures lastTimestamp == if verdict == Accepted then t else old(lastTimestamp)
      ensures lastFrameTimestamp == old(lastFrameTimestamp) && frameId == old(frameId)
      ensures hasPreviousImages == old(hasPreviousImages)
    {
      if !imuFusionEnabled {
        return FusionDisabled;
      }
      if sensorIndex != 0 {
        return WrongSensor;
      }
      if t < lastTimestamp {
        return NonMonotonic;
      }
      lastTimestamp := t;
      return Accepted;
    }

    method Track(t: Timestamp) returns (verdict: Verdict)
      modifies this
      ensures verdict == TrackVerdict(old(State()), t) && State() == AfterTrack(old(State()), t)
      ensures verdict == NonMonotonic <==> t < old(lastTimestamp)
      ensures verdict == FrameNotIncreasing <==>
                old(lastTimestamp) <= t && old(hasPreviousImages) && t <= old(lastFrameTimestamp)
      ensures verdict in {Accepted, NonMonotonic, FrameNotIncreasing}
      ensures frameId == old(frameId) + 1
      ensures verdict == Accepted ==> lastTimestamp == t && lastFrameTimestamp == t && hasPreviousImages
      ensures verdict != Accepted ==>
                && lastTimestamp == old(lastTimestamp) && lastFrameTimestamp == old(lastFrameTimestamp)
                && hasPreviousImages == old(hasPreviousImages)
    {
      frameId := frameId + 1;
      if t < lastTimestamp {
        return NonMonotonic;
      }
      if hasPreviousImages {
        if t <= lastFrameTimestamp {
          return FrameNotIncreasing;
        }
      }
      lastTimestamp := t;
      lastFrameTimestamp := t;
      hasPreviousImages := true;
      return Accepted;
    }
  }
}
