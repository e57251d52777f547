/** The IMU/camera thread protocol of the RealSense examples (examples/realsense/run_vio.py and
    run_multisensor.py) against the odometry's timestamp contract. */
module ImuProtocol {
  import opened Wrappers
  import opened OdometryClock

  // One thread captures IMU samples into a bounded queue and drops the oldest sample on overflow. The
  // other waits for frames, drains the queue, registers the samples up to the frame time and tracks the
  // frame. Every queue operation is one atomic step; a schedule interleaves the steps arbitrarily. The
  // warm-up of run_multisensor.py is a number of leading frames that are skipped (zero for run_vio.py);
  // its stop event only ends a schedule early.

  /** The number tells samples with equal timestamps apart; it is the sample's rank among the accepted. */
  datatype Sample = Sample(number: nat, time: Timestamp)

  datatype Producer =
    | Capturing
    | Putting(sample: Sample)
    | Evicting(sample: Sample)
    | PuttingAgain(sample: Sample)
    | Crashed

  datatype Consumer =
    | AwaitingFrame
    | Draining(frame: Timestamp)
    | Registering(frame: Timestamp)
    | Tracking(frame: Timestamp)
    | Failed(verdict: Verdict)

  datatype Call = Register(time: Timestamp) | Track(time: Timestamp)

  datatype Settings = Settings(capacity: nat, warmupFrames: nat)

  datatype State = State(
    // shared
    queue: seq<Sample>,
    // IMU thread
    previousImu: Option<Timestamp>,
    producer: Producer,
    // camera thread
    framesSeen: nat,
    pending: seq<Sample>,
    lastTracker: Option<Timestamp>,
    consumer: Consumer,
    clock: Clock,
    // history
    accepted: seq<Sample>,
    registered: seq<Sample>,
    dropped: seq<Sample>,
    late: seq<Sample>,
    frames: seq<Timestamp>,
    calls: seq<Call>)

  const InitialState := State([], None, Capturing, 0, [], None, AwaitingFrame, InitialClock, [], [], [], [], [], [])

  datatype Event =
    | ImuArrives(time: Timestamp)
    | ProducerStep
    | FrameArrives(time: Timestamp)
    | ConsumerStep

  // ----- one atomic step -----

  function OnImu(s: State, t: Timestamp): State {
    if s.producer != Capturing || (s.previousImu.Some? && t < s.previousImu.value) then s
    else
      var sample := Sample(|s.accepted|, t);
      s.(previousImu := Some(t), accepted := s.accepted + [sample], producer := Putting(sample))
  }

  function OnProducer(cfg: Settings, s: State): State {
    match s.producer
    case Putting(x) =>
      if |s.queue| < cfg.capacity then s.(queue := s.queue + [x], producer := Capturing)
      else s.(producer := Evicting(x))
    case Evicting(x) =>
      if s.queue == [] then s.(producer := PuttingAgain(x))
      else s.(dropped := s.dropped + [s.queue[0]], queue := s.queue[1..], producer := PuttingAgain(x))
    case PuttingAgain(x) =>
      if |s.queue| < cfg.capacity then s.(queue := s.queue + [x], producer := Capturing)
      else s.(producer := Crashed)
    case _ => s
  }

  function OnFrame(cfg: Settings, s: State, t: Timestamp): State {
    if s.consumer != AwaitingFrame then s
    else if s.framesSeen < cfg.warmupFrames then s.(framesSeen := s.framesSeen + 1)
    else s.(framesSeen := s.framesSeen + 1, frames := s.frames + [t], consumer := Draining(t))
  }

  function RegisterFirst(s: State): State
    requires s.pending != []
  {
    var x := s.pending[0];
    if s.lastTracker.Some? && x.time < s.lastTracker.value then
      s.(pending := s.pending[1..], late := s.late + [x])
    else if RegisterVerdict(s.clock, x.time) != Accepted then
      s.(pending := s.pending[1..], consumer := Failed(RegisterVerdict(s.clock, x.time)))
    else
      s.(pending := s.pending[1..], registered := s.registered + [x], calls := s.calls + [Register(x.time)],
         clock := AfterRegister(s.clock, x.time), lastTracker := Some(x.time))
  }

  function TrackFrame(s: State, t: Timestamp): State {
    if TrackVerdict(s.clock, t) != Accepted then
      s.(clock := AfterTrack(s.clock, t), consumer := Failed(TrackVerdict(s.clock, t)))
    else
      s.(clock := AfterTrack(s.clock, t), calls := s.calls + [Track(t)], lastTracker := Some(t),
         consumer := AwaitingFrame)
  }

  function OnConsumer(s: State): State {
    match s.consumer
    case Draining(t) =>
      if s.queue == [] then s.(consumer := Registering(t))
      else s.(pending := s.pending + [s.queue[0]], queue := s.queue[1..])
    case Registering(t) =>
      if s.pending != [] && s.pending[0].time <= t then RegisterFirst(s)
      else s.(consumer := Tracking(t))
    case Tracking(t) => TrackFrame(s, t)
    case _ => s
  }

  /** A step that its thread is not ready for leaves the state as it is. */
  function Step(cfg: Settings, s: State, e: Event): State {
    match e
    case ImuArrives(t) => OnImu(s, t)
    case ProducerStep => OnProducer(cfg, s)
    case FrameArrives(t) => OnFrame(cfg, s, t)
    case ConsumerStep => OnConsumer(s)
  }

  function Run(cfg: Settings, schedule: seq<Event>): State {
    if schedule == [] then InitialState
    else Step(cfg, Run(cfg, schedule[..|schedule| - 1]), schedule[|schedule| - 1])
  }

  // ----- where samples are -----

  function InFlight(p: Producer): seq<Sample> {
    match p
    case Putting(x) => [x]
    case Evicting(x) => [x]
    case PuttingAgain(x) => [x]
    case _ => []
  }

  /** The samples between capture and registration, oldest first. */
  function Flow(s: State): seq<Sample> {
    s.pending + s.queue + InFlight(s.producer)
  }

  ghost predicate Earlier(x: Sample, y: Sample) {
    x.number < y.number && x.time <= y.time
  }

  /** Numbers strictly increase and times never decrease. */
  ghost predicate InOrder(xs: seq<Sample>) {
    forall i, j {:trigger Earlier(xs[i], xs[j])} :: 0 <= i < j < |xs| ==> Earlier(xs[i], xs[j])
  }

  ghost predicate AllBefore(xs: seq<Sample>, ys: seq<Sample>) {
    forall i, j {:trigger Earlier(xs[i], ys[j])} :: 0 <= i < |xs| && 0 <= j < |ys| ==> Earlier(xs[i], ys[j])
  }

  ghost predicate Known(x: Sample, accepted: seq<Sample>) {
    x.number < |accepted| && accepted[x.number] == x
  }

  ghost predicate From(xs: seq<Sample>, accepted: seq<Sample>) {
    forall i {:trigger Known(xs[i], accepted)} :: 0 <= i < |xs| ==> Known(xs[i], accepted)
  }

  ghost predicate Numbered(accepted: seq<Sample>) {
    forall i :: 0 <= i < |accepted| ==> accepted[i].number == i
  }

  /** The books on samples: everything accepted is, exactly once, in flow, registered, late or dropped;
      flow and registered samples keep the order of capture, and registration runs ahead of the flow. */
  ghost predicate Ledger(accepted: seq<Sample>, flow: seq<Sample>, registered: seq<Sample>,
                         late: seq<Sample>, dropped: seq<Sample>)
  {
    && Numbered(accepted) && InOrder(accepted)
    && InOrder(flow) && From(flow, accepted)
    && InOrder(registered) && From(registered, accepted)
    && AllBefore(registered, flow)
    && multiset(accepted) == multiset(flow) + multiset(registered) + multiset(late) + multiset(dropped)
  }

  ghost predicate SamplesOk(s: State) {
    && Ledger(s.accepted, Flow(s), s.registered, s.late, s.dropped)
    && (s.previousImu == if s.accepted == [] then None else Some(s.accepted[|s.accepted| - 1].time))
  }

  ghost predicate QueueOk(cfg: Settings, s: State) {
    && |s.queue| <= cfg.capacity
    && (s.producer.PuttingAgain? ==> |s.queue| < cfg.capacity)
    && !s.producer.Crashed?
  }

  // ----- what the odometry has been told -----

  function TrackedTimes(calls: seq<Call>): seq<Timestamp> {
    if calls == [] then []
    else TrackedTimes(calls[..|calls| - 1]) + match calls[|calls| - 1] case Track(t) => [t] case Register(_) => []
  }

  function RegisteredTimes(calls: seq<Call>): seq<Timestamp> {
    if calls == [] then []
    else RegisteredTimes(calls[..|calls| - 1]) + match calls[|calls| - 1] case Register(t) => [t] case Track(_) => []
  }

  function Times(xs: seq<Sample>): seq<Timestamp> {
    seq(|xs|, i requires 0 <= i < |xs| => xs[i].time)
  }

  ghost predicate NonDecreasing(calls: seq<Call>) {
    forall i, j :: 0 <= i < j < |calls| ==> calls[i].time <= calls[j].time
  }

  ghost predicate StrictlyIncreasing(ts: seq<Timestamp>) {
    forall i, j :: 0 <= i < j < |ts| ==> ts[i] < ts[j]
  }

  function Last<T>(xs: seq<T>): T
    requires xs != []
  {
    xs[|xs| - 1]
  }

  /** The odometry's clock and the camera thread's own last timestamp both follow the calls made. */
  ghost predicate Follows(calls: seq<Call>, registered: seq<Sample>, lastTracker: Option<Timestamp>, clock: Clock) {
    var tracked := TrackedTimes(calls);
    && NonDecreasing(calls) && StrictlyIncreasing(tracked)
    && RegisteredTimes(calls) == Times(registered)
    && (if calls == [] then lastTracker == None && clock.lastTimestamp == INT64_MIN
        else lastTracker == Some(clock.lastTimestamp) && clock.lastTimestamp == Last(calls).time)
    && (clock.hasPreviousImages <==> tracked != [])
    && (tracked != [] ==> clock.lastFrameTimestamp == Last(tracked) && Last(tracked) <= clock.lastTimestamp)
  }

  ghost predicate ClockFollows(s: State) {
    Follows(s.calls, s.registered, s.lastTracker, s.clock)
  }

  /** Nothing was registered since the last tracked frame (or at all, before the first). */
  ghost predicate AtFrame(calls: seq<Call>, clock: Clock) {
    if clock.hasPreviousImages then clock.lastTimestamp == clock.lastFrameTimestamp else calls == []
  }

  /** Between frames the last call was the last frame; while a frame is in progress, only samples up to
      its time were registered. */
  ghost predicate Progress(consumer: Consumer, frames: seq<Timestamp>, calls: seq<Call>, clock: Clock) {
    var tracked := TrackedTimes(calls);
    match consumer
    case AwaitingFrame => frames == tracked && AtFrame(calls, clock)
    case Draining(t) => frames == tracked + [t] && AtFrame(calls, clock)
    case Registering(t) => frames == tracked + [t] && (AtFrame(calls, clock) || clock.lastTimestamp <= t)
    case Tracking(t) => frames == tracked + [t] && (AtFrame(calls, clock) || clock.lastTimestamp <= t)
    case Failed(_) =>
      |frames| == |tracked| + 1 && tracked == frames[..|tracked|] && tracked != [] && Last(frames) <= Last(tracked)
  }

  ghost predicate ClockOk(s: State) {
    ClockFollows(s) && Progress(s.consumer, s.frames, s.calls, s.clock)
  }

  lemma {:induction false} CallAppended(calls: seq<Call>, c: Call)
    ensures TrackedTimes(calls + [c]) == TrackedTimes(calls) + if c.Track? then [c.time] else []
    ensures RegisteredTimes(calls + [c]) == RegisteredTimes(calls) + if c.Register? then [c.time] else []
  {
    assert (calls + [c])[..|calls|] == calls;
  }

  /** The camera thread never hands over a sample the odometry would refuse. */
  lemma {:induction false} RegisterNeverRefused(s: State)
    requires ClockFollows(s) && s.pending != []
    requires s.lastTracker.Some? ==> s.pending[0].time >= s.lastTracker.value
    ensures RegisterVerdict(s.clock, s.pending[0].time) == Accepted
  {
  }

  /** Tracking is refused exactly when the frame is not later than the last tracked one. */
  lemma {:induction false} TrackRefusedIff(s: State, t: Timestamp)
    requires ClockOk(s) && s.consumer == Tracking(t)
    ensures TrackVerdict(s.clock, t) != Accepted <==>
            TrackedTimes(s.calls) != [] && t <= Last(TrackedTimes(s.calls))
  {
  }

  lemma {:induction false} FollowsRegister(calls: seq<Call>, registered: seq<Sample>, lastTracker: Option<Timestamp>,
                                           clock: Clock, x: Sample)
    requires Follows(calls, registered, lastTracker, clock) && clock.lastTimestamp <= x.time
    ensures Follows(calls + [Register(x.time)], registered + [x], Some(x.time), AfterRegister(clock, x.time))
  {
    CallAppended(calls, Register(x.time));
    assert Times(registered + [x]) == Times(registered) + [x.time];
    assert forall i :: 0 <= i < |calls| ==> calls[i].time <= Last(calls).time;
  }

  lemma {:induction false} FollowsTrack(calls: seq<Call>, registered: seq<Sample>, lastTracker: Option<Timestamp>,
                                        clock: Clock, t: Timestamp)
    requires Follows(calls, registered, lastTracker, clock) && TrackVerdict(clock, t) == Accepted
    ensures Follows(calls + [Track(t)], registered, Some(t), AfterTrack(clock, t))
  {
    CallAppended(calls, Track(t));
    assert forall i :: 0 <= i < |calls| ==> calls[i].time <= Last(calls).time;
    var tracked := TrackedTimes(calls);
    assert forall i :: 0 <= i < |tracked| ==> tracked[i] <= Last(tracked);
  }

  lemma {:induction false} ClockOnRegister(s: State)
    requires ClockOk(s) && s.consumer.Registering? && s.pending != [] && s.pending[0].time <= s.consumer.frame
    ensures ClockOk(RegisterFirst(s))
  {
    var x := s.pending[0];
    if s.lastTracker.Some? ==> x.time >= s.lastTracker.value {
      RegisterNeverRefused(s);
      FollowsRegister(s.calls, s.registered, s.lastTracker, s.clock, x);
      CallAppended(s.calls, Register(x.time));
    }
  }

  lemma {:induction false} ClockOnTrack(s: State, t: Timestamp)
    requires ClockOk(s) && s.consumer == Tracking(t)
    ensures ClockOk(TrackFrame(s, t))
  {
    TrackRefusedIff(s, t);
    if TrackVerdict(s.clock, t) == Accepted {
      FollowsTrack(s.calls, s.registered, s.lastTracker, s.clock, t);
      CallAppended(s.calls, Track(t));
    }
  }

  lemma {:induction false} ClockOnConsumer(s: State)
    requires ClockOk(s)
    ensures ClockOk(OnConsumer(s))
  {
    match s.consumer
    case Registering(t) =>
      if s.pending != [] && s.pending[0].time <= t {
        ClockOnRegister(s);
      }
    case Tracking(t) =>
      ClockOnTrack(s, t);
    case _ =>
  }

  lemma {:induction false} ClockOnFrame(cfg: Settings, s: State, t: Timestamp)
    requires ClockOk(s)
    ensures ClockOk(OnFrame(cfg, s, t))
  {
  }

  /** The clock facts only look at the camera thread's side. */
  lemma {:induction false} SameClock(s: State, r: State)
    requires ClockOk(s)
    requires r.calls == s.calls && r.registered == s.registered && r.lastTracker == s.lastTracker
    requires r.clock == s.clock && r.consumer == s.consumer && r.frames == s.frames
    ensures ClockOk(r)
  {
  }

  lemma {:induction false} ClockStep(cfg: Settings, s: State, e: Event)
    requires ClockOk(s)
    ensures ClockOk(Step(cfg, s, e))
  {
    match e {
      case ImuArrives(t) => SameClock(s, OnImu(s, t));
      case ProducerStep => SameClock(s, OnProducer(cfg, s));
      case FrameArrives(t) => ClockOnFrame(cfg, s, t);
      case ConsumerStep => ClockOnConsumer(s);
    }
  }

  // ----- every step keeps the samples in place -----

  lemma {:induction false} QueueStep(cfg: Settings, s: State, e: Event)
    requires cfg.capacity > 0 && QueueOk(cfg, s)
    ensures QueueOk(cfg, Step(cfg, s, e))
  {
  }

  lemma {:induction false} OrderAccepts(xs: seq<Sample>, accepted: seq<Sample>, t: Timestamp)
    requires InOrder(accepted) && From(xs, accepted) && InOrder(xs)
    requires accepted != [] ==> accepted[|accepted| - 1].time <= t
    ensures var x := Sample(|accepted|, t);
            InOrder(xs + [x]) && From(xs + [x], accepted + [x]) && From(xs, accepted + [x]) && AllBefore(xs, [x])
  {
    var x := Sample(|accepted|, t);
    forall i | 0 <= i < |xs| ensures Known(xs[i], accepted + [x]) && Earlier(xs[i], x) {
      assert Known(xs[i], accepted);
      if xs[i].number < |accepted| - 1 {
        assert Earlier(accepted[xs[i].number], accepted[|accepted| - 1]);
      }
    }
  }

  lemma {:induction false} BeforeBoth(xs: seq<Sample>, ys: seq<Sample>, zs: seq<Sample>)
    requires AllBefore(xs, ys) && AllBefore(xs, zs)
    ensures AllBefore(xs, ys + zs)
  {
  }

  lemma {:induction false} NumberedFromItself(accepted: seq<Sample>)
    requires Numbered(accepted)
    ensures From(accepted, accepted)
  {
  }

  lemma {:induction false} LedgerAccepts(accepted: seq<Sample>, flow: seq<Sample>, registered: seq<Sample>,
                                         late: seq<Sample>, dropped: seq<Sample>, t: Timestamp)
    requires Ledger(accepted, flow, registered, late, dropped)
    requires accepted != [] ==> accepted[|accepted| - 1].time <= t
    ensures var x := Sample(|accepted|, t); Ledger(accepted + [x], flow + [x], registered, late, dropped)
  {
    NumberedFromItself(accepted);
    OrderAccepts(accepted, accepted, t);
    OrderAccepts(flow, accepted, t);
    OrderAccepts(registered, accepted, t);
    BeforeBoth(registered, flow, [Sample(|accepted|, t)]);
  }

  /** Taking one sample out of the flow keeps the rest in order. */
  lemma {:induction false} FlowWithout(accepted: seq<Sample>, flow: seq<Sample>, rest: seq<Sample>,
                                       registered: seq<Sample>, k: nat)
    requires InOrder(flow) && From(flow, accepted) && AllBefore(registered, flow)
    requires k < |flow| && rest == flow[..k] + flow[k + 1..]
    ensures InOrder(rest) && From(rest, accepted) && AllBefore(registered, rest)
    ensures multiset(flow) == multiset(rest) + multiset{flow[k]}
  {
    assert flow == flow[..k] + [flow[k]] + flow[k + 1..];
  }

  lemma {:induction false} OrderRegisters(registered: seq<Sample>, flow: seq<Sample>, accepted: seq<Sample>)
    requires InOrder(flow) && From(flow, accepted) && flow != []
    requires InOrder(registered) && From(registered, accepted) && AllBefore(registered, flow)
    ensures InOrder(registered + [flow[0]]) && From(registered + [flow[0]], accepted)
    ensures AllBefore(registered + [flow[0]], flow[1..])
  {
  }

  lemma {:induction false} LedgerDrops(accepted: seq<Sample>, flow: seq<Sample>, registered: seq<Sample>,
                                       late: seq<Sample>, dropped: seq<Sample>, rest: seq<Sample>, k: nat)
    requires Ledger(accepted, flow, registered, late, dropped)
    requires k < |flow| && rest == flow[..k] + flow[k + 1..]
    ensures Ledger(accepted, rest, registered, late, dropped + [flow[k]])
    ensures Ledger(accepted, rest, registered, late + [flow[k]], dropped)
  {
    FlowWithout(accepted, flow, rest, registered, k);
  }

  lemma {:induction false} LedgerRegisters(accepted: seq<Sample>, flow: seq<Sample>, registered: seq<Sample>,
                                           late: seq<Sample>, dropped: seq<Sample>)
    requires Ledger(accepted, flow, registered, late, dropped) && flow != []
    ensures Ledger(accepted, flow[1..], registered + [flow[0]], late, dropped)
  {
    assert flow[1..] == flow[..0] + flow[1..];
    FlowWithout(accepted, flow, flow[1..], registered, 0);
    OrderRegisters(registered, flow, accepted);
  }

  /** One lemma per way the books can change between two states. */
  lemma {:induction false} SameLedger(s: State, r: State)
    requires SamplesOk(s) && Flow(r) == Flow(s)
    requires r.accepted == s.accepted && r.previousImu == s.previousImu
    requires r.registered == s.registered && r.late == s.late && r.dropped == s.dropped
    ensures SamplesOk(r)
  {
  }

  lemma {:induction false} AcceptedLedger(s: State, r: State, t: Timestamp)
    requires SamplesOk(s) && (s.previousImu.Some? ==> s.previousImu.value <= t) && r.previousImu == Some(t)
    requires var x := Sample(|s.accepted|, t); r.accepted == s.accepted + [x] && Flow(r) == Flow(s) + [x]
    requires r.registered == s.registered && r.late == s.late && r.dropped == s.dropped
    ensures SamplesOk(r)
  {
    LedgerAccepts(s.accepted, Flow(s), s.registered, s.late, s.dropped, t);
  }

  /** Sample k leaves the flow, either dropped or late. */
  lemma {:induction false} DroppedLedger(s: State, r: State, k: nat)
    requires SamplesOk(s) && k < |Flow(s)| && Flow(r) == Flow(s)[..k] + Flow(s)[k + 1..]
    requires r.accepted == s.accepted && r.previousImu == s.previousImu && r.registered == s.registered
    requires (r.late == s.late && r.dropped == s.dropped + [Flow(s)[k]]) ||
             (r.late == s.late + [Flow(s)[k]] && r.dropped == s.dropped)
    ensures SamplesOk(r)
  {
    LedgerDrops(s.accepted, Flow(s), s.registered, s.late, s.dropped, Flow(r), k);
  }

  lemma {:induction false} RegisteredLedger(s: State, r: State)
    requires SamplesOk(s) && Flow(s) != [] && Flow(r) == Flow(s)[1..]
    requires r.accepted == s.accepted && r.previousImu == s.previousImu
    requires r.registered == s.registered + [Flow(s)[0]] && r.late == s.late && r.dropped == s.dropped
    ensures SamplesOk(r)
  {
    LedgerRegisters(s.accepted, Flow(s), s.registered, s.late, s.dropped);
  }

  /** How the steps change the books, said without the invariant. */
  datatype Change = Unchanged | AcceptedNew(t: Timestamp) | Removed(k: nat) | RegisteredFirst

  ghost predicate Changes(s: State, r: State, change: Change) {
    match change
    case Unchanged =>
      && Flow(r) == Flow(s) && r.accepted == s.accepted && r.previousImu == s.previousImu
      && r.registered == s.registered && r.late == s.late && r.dropped == s.dropped
    case AcceptedNew(t) =>
      var x := Sample(|s.accepted|, t);
      && (s.previousImu.Some? ==> s.previousImu.value <= t) && r.previousImu == Some(t)
      && r.accepted == s.accepted + [x] && Flow(r) == Flow(s) + [x]
      && r.registered == s.registered && r.late == s.late && r.dropped == s.dropped
    case Removed(k) =>
      && k < |Flow(s)| && Flow(r) == Flow(s)[..k] + Flow(s)[k + 1..]
      && r.accepted == s.accepted && r.previousImu == s.previousImu && r.registered == s.registered
      && ((r.late == s.late && r.dropped == s.dropped + [Flow(s)[k]]) ||
          (r.late == s.late + [Flow(s)[k]] && r.dropped == s.dropped))
    case RegisteredFirst =>
      && Flow(s) != [] && Flow(r) == Flow(s)[1..] && r.accepted == s.accepted && r.previousImu == s.previousImu
      && r.registered == s.registered + [Flow(s)[0]] && r.late == s.late && r.dropped == s.dropped
  }

  lemma {:induction false} ChangeKeepsSamples(s: State, r: State, change: Change)
    requires SamplesOk(s) && Changes(s, r, change)
    ensures SamplesOk(r)
  {
    match change
    case Unchanged => SameLedger(s, r);
    case AcceptedNew(t) => AcceptedLedger(s, r, t);
    case Removed(k) => DroppedLedger(s, r, k);
    case RegisteredFirst => RegisteredLedger(s, r);
  }

  lemma {:induction false} ImuChange(s: State, t: Timestamp) returns (change: Change)
    ensures Changes(s, OnImu(s, t), change)
  {
    change := if OnImu(s, t) == s then Unchanged else AcceptedNew(t);
    assert s.producer == Capturing ==> Flow(s) == s.pending + s.queue;
  }

  /** The producer's queue operations only take the oldest queued sample out, if they take any. */
  lemma {:induction false} ProducerChange(cfg: Settings, s: State) returns (change: Change)
    requires cfg.capacity > 0 && QueueOk(cfg, s)
    ensures Changes(s, OnProducer(cfg, s), change)
  {
    change := Unchanged;
    if s.producer.Evicting? && s.queue != [] {
      assert s.queue == [s.queue[0]] + s.queue[1..];
      change := Removed(|s.pending|);
    }
  }

  lemma {:induction false} FrameChange(cfg: Settings, s: State, t: Timestamp)
    ensures Changes(s, OnFrame(cfg, s, t), Unchanged)
  {
  }

  lemma {:induction false} ConsumerChange(s: State) returns (change: Change)
    requires s.consumer.Registering? && s.pending != [] ==>
               (s.lastTracker.Some? ==> s.pending[0].time >= s.lastTracker.value) ==>
               RegisterVerdict(s.clock, s.pending[0].time) == Accepted
    ensures Changes(s, OnConsumer(s), change)
  {
    change := Unchanged;
    if s.consumer.Draining? && s.queue != [] {
      assert s.queue == [s.queue[0]] + s.queue[1..];
    } else if s.consumer.Registering? && s.pending != [] && s.pending[0].time <= s.consumer.frame {
      assert s.pending == [s.pending[0]] + s.pending[1..];
      assert Flow(s)[0] == s.pending[0];
      change := if s.lastTracker.Some? && s.pending[0].time < s.lastTracker.value then Removed(0) else RegisteredFirst;
    }
  }

  lemma {:induction false} StepChange(cfg: Settings, s: State, e: Event) returns (change: Change)
    requires cfg.capacity > 0 && QueueOk(cfg, s) && ClockFollows(s)
    ensures Changes(s, Step(cfg, s, e), change)
  {
    match e {
      case ImuArrives(t) => change := ImuChange(s, t);
      case ProducerStep => change := ProducerChange(cfg, s);
      case FrameArrives(t) => FrameChange(cfg, s, t); change := Unchanged;
      case ConsumerStep =>
        if s.pending != [] && (s.lastTracker.Some? ==> s.pending[0].time >= s.lastTracker.value) {
          RegisterNeverRefused(s);
        }
        change := ConsumerChange(s);
    }
  }

  // ----- whole runs -----

  ghost predicate Invariant(cfg: Settings, s: State) {
    SamplesOk(s) && QueueOk(cfg, s) && ClockOk(s)
  }

  lemma {:induction false} StepKeepsInvariant(cfg: Settings, s: State, e: Event)
    requires cfg.capacity > 0 && Invariant(cfg, s)
    ensures Invariant(cfg, Step(cfg, s, e))
  {
    QueueStep(cfg, s, e);
    ClockStep(cfg, s, e);
    var change := StepChange(cfg, s, e);
    ChangeKeepsSamples(s, Step(cfg, s, e), change);
  }

  /** Every interleaving, of any length, keeps the invariant. */
  lemma {:induction false} RunKeepsInvariant(cfg: Settings, schedule: seq<Event>)
    requires cfg.capacity > 0
    ensures Invariant(cfg, Run(cfg, schedule))
    decreases |schedule|
  {
    if schedule != [] {
      RunKeepsInvariant(cfg, schedule[..|schedule| - 1]);
      StepKeepsInvariant(cfg, Run(cfg, schedule[..|schedule| - 1]), schedule[|schedule| - 1]);
    } else {
      assert Flow(InitialState) == [];
    }
  }

  /** The odometry sees one merged stream in time order, whatever the frame timestamps are; the frames in
      it strictly increase, and its samples are the registered ones in order of capture. */
  lemma {:induction false} CallsAreOrdered(cfg: Settings, schedule: seq<Event>)
    requires cfg.capacity > 0
    ensures var s := Run(cfg, schedule);
            && NonDecreasing(s.calls) && StrictlyIncreasing(TrackedTimes(s.calls))
            && RegisteredTimes(s.calls) == Times(s.registered)
            && InOrder(s.registered) && From(s.registered, s.accepted)
  {
    RunKeepsInvariant(cfg, schedule);
  }

  /** The camera thread fails exactly when the frames it took up are not strictly increasing: it never
      fails over a sample, and at rest it has failed if and only if a frame broke the order. */
  lemma {:induction false} FailsIffFramesDisordered(cfg: Settings, schedule: seq<Event>)
    requires cfg.capacity > 0
    ensures var s := Run(cfg, schedule);
            && (StrictlyIncreasing(s.frames) ==> !s.consumer.Failed?)
            && (s.consumer == AwaitingFrame || s.consumer.Failed? ==>
                  (s.consumer.Failed? <==> !StrictlyIncreasing(s.frames)))
  {
    RunKeepsInvariant(cfg, schedule);
    var s := Run(cfg, schedule);
    if s.consumer.Failed? {
      var n := |TrackedTimes(s.calls)|;
      assert s.frames[n - 1] == TrackedTimes(s.calls)[n - 1];
      assert s.frames[n] <= s.frames[n - 1];
    }
  }

  /** Samples are conserved: each accepted one is in exactly one of the seven places. */
  lemma {:induction false} SampleIsInOnePlace(cfg: Settings, schedule: seq<Event>, k: nat)
    requires cfg.capacity > 0 && k < |Run(cfg, schedule).accepted|
    ensures var s := Run(cfg, schedule); var x := s.accepted[k];
            multiset(s.queue)[x] + multiset(s.pending)[x] + multiset(InFlight(s.producer))[x]
              + multiset(s.registered)[x] + multiset(s.late)[x] + multiset(s.dropped)[x] == 1
  {
    RunKeepsInvariant(cfg, schedule);
    var s := Run(cfg, schedule);
    CountNumbered(s.accepted, k);
    assert multiset(Flow(s)) == multiset(s.pending) + multiset(s.queue) + multiset(InFlight(s.producer));
  }

  lemma {:induction false} CountNumbered(accepted: seq<Sample>, k: nat)
    requires Numbered(accepted) && k < |accepted|
    ensures multiset(accepted)[accepted[k]] == 1
  {
    var x := accepted[k];
    assert accepted == accepted[..k] + [x] + accepted[k + 1..];
    assert x !in accepted[..k] && x !in accepted[k + 1..];
  }

  /** The IMU thread's second put never finds the queue full, and the queue never outgrows its capacity. */
  lemma {:induction false} SecondPutSucceeds(cfg: Settings, schedule: seq<Event>)
    requires cfg.capacity > 0
    ensures var s := Run(cfg, schedule);
            && |s.queue| <= cfg.capacity && !s.producer.Crashed?
            && (s.producer.PuttingAgain? ==>
                  OnProducer(cfg, s) == s.(queue := s.queue + [s.producer.sample], producer := Capturing))
  {
    RunKeepsInvariant(cfg, schedule);
  }

  // ----- why a sample is late -----

  ghost predicate OlderThanLast(x: Sample, tracked: seq<Timestamp>) {
    tracked != [] && x.time < Last(tracked)
  }

  ghost predicate AllOld(late: seq<Sample>, tracked: seq<Timestamp>) {
    forall i :: 0 <= i < |late| ==> OlderThanLast(late[i], tracked)
  }

  /** Every late sample is older than the last frame tracked. */
  ghost predicate LateAreOld(s: State) {
    AllOld(s.late, TrackedTimes(s.calls))
  }

  /** When a frame is about to be tracked, everything still pending is later than it. */
  ghost predicate PendingIsLater(s: State) {
    s.consumer.Tracking? ==> forall i :: 0 <= i < |s.pending| ==> s.pending[i].time > s.consumer.frame
  }

  lemma {:induction false} LastRegistered(calls: seq<Call>, registered: seq<Sample>)
    requires calls != [] && Last(calls).Register? && RegisteredTimes(calls) == Times(registered)
    ensures registered != [] && Last(registered).time == Last(calls).time
  {
    assert Last(RegisteredTimes(calls)) == Last(calls).time;
  }

  lemma {:induction false} RegisteredNotLater(s: State)
    requires SamplesOk(s) && s.pending != [] && s.registered != []
    ensures Last(s.registered).time <= s.pending[0].time
  {
    assert Flow(s)[0] == s.pending[0];
    assert Earlier(s.registered[|s.registered| - 1], Flow(s)[0]);
  }

  /** What is pending is not older than the last registered sample, so a sample older than the last call is
      older than a frame. */
  lemma {:induction false} LateIsOlder(s: State)
    requires SamplesOk(s) && ClockFollows(s) && s.pending != []
    requires s.lastTracker.Some? && s.pending[0].time < s.lastTracker.value
    ensures OlderThanLast(s.pending[0], TrackedTimes(s.calls))
  {
    if Last(s.calls).Register? {
      LastRegistered(s.calls, s.registered);
      RegisteredNotLater(s);
    } else {
      assert Last(TrackedTimes(s.calls)) == Last(s.calls).time;
    }
  }

  lemma {:induction false} OneMoreOld(late: seq<Sample>, x: Sample, tracked: seq<Timestamp>)
    requires AllOld(late, tracked) && OlderThanLast(x, tracked)
    ensures AllOld(late + [x], tracked)
  {
  }

  lemma {:induction false} LateOnRegister(s: State)
    requires s.pending != [] && LateAreOld(s)
    requires s.lastTracker.Some? && s.pending[0].time < s.lastTracker.value ==>
               OlderThanLast(s.pending[0], TrackedTimes(s.calls))
    ensures LateAreOld(RegisterFirst(s))
  {
    var x := s.pending[0];
    if s.lastTracker.Some? && x.time < s.lastTracker.value {
      OneMoreOld(s.late, x, TrackedTimes(s.calls));
    } else {
      CallAppended(s.calls, Register(x.time));
    }
  }

  lemma {:induction false} OldStays(late: seq<Sample>, tracked: seq<Timestamp>, t: Timestamp)
    requires AllOld(late, tracked) && (tracked != [] ==> Last(tracked) < t)
    ensures AllOld(late, tracked + [t])
  {
    forall i | 0 <= i < |late| ensures OlderThanLast(late[i], tracked + [t]) {
      assert OlderThanLast(late[i], tracked);
    }
  }

  lemma {:induction false} LateOnTrack(s: State, t: Timestamp)
    requires ClockOk(s) && s.consumer == Tracking(t) && LateAreOld(s)
    ensures LateAreOld(TrackFrame(s, t))
  {
    TrackRefusedIff(s, t);
    CallAppended(s.calls, Track(t));
    if TrackVerdict(s.clock, t) == Accepted {
      OldStays(s.late, TrackedTimes(s.calls), t);
    }
  }

  lemma {:induction false} LateOnConsumer(s: State)
    requires SamplesOk(s) && ClockOk(s) && LateAreOld(s)
    ensures LateAreOld(OnConsumer(s))
  {
    match s.consumer
    case Registering(t) =>
      if s.pending != [] && s.pending[0].time <= t {
        if s.lastTracker.Some? && s.pending[0].time < s.lastTracker.value {
          LateIsOlder(s);
        }
        LateOnRegister(s);
      }
    case Tracking(t) =>
      LateOnTrack(s, t);
    case _ =>
  }

  lemma {:induction false} PendingOnConsumer(s: State)
    requires SamplesOk(s) && PendingIsLater(s)
    ensures PendingIsLater(OnConsumer(s))
  {
    if s.consumer.Registering? && s.pending != [] && s.pending[0].time > s.consumer.frame {
      forall i | 0 <= i < |s.pending| ensures s.pending[i].time > s.consumer.frame {
        assert Flow(s)[0] == s.pending[0] && Flow(s)[i] == s.pending[i];
        assert i > 0 ==> Earlier(Flow(s)[0], Flow(s)[i]);
      }
    }
  }

  lemma {:induction false} OtherStepsLeave(cfg: Settings, s: State, e: Event)
    requires e != ConsumerStep
    ensures var r := Step(cfg, s, e);
            r.late == s.late && r.calls == s.calls && r.pending == s.pending && (r.consumer == s.consumer || r.consumer.Draining?)
  {
  }

  lemma {:induction false} StepKeepsTimely(cfg: Settings, s: State, e: Event)
    requires SamplesOk(s) && ClockOk(s) && LateAreOld(s) && PendingIsLater(s)
    ensures LateAreOld(Step(cfg, s, e)) && PendingIsLater(Step(cfg, s, e))
  {
    if e == ConsumerStep {
      LateOnConsumer(s);
      PendingOnConsumer(s);
    } else {
      OtherStepsLeave(cfg, s, e);
    }
  }

  /** A sample is late only because a later frame was tracked before the sample was reached; and no frame is
      tracked while a sample at or before it is pending. */
  lemma {:induction false} LateOnlyBehindFrames(cfg: Settings, schedule: seq<Event>)
    requires cfg.capacity > 0
    ensures LateAreOld(Run(cfg, schedule)) && PendingIsLater(Run(cfg, schedule))
    decreases |schedule|
  {
    if schedule != [] {
      var before := schedule[..|schedule| - 1];
      RunKeepsInvariant(cfg, before);
      LateOnlyBehindFrames(cfg, before);
      StepKeepsTimely(cfg, Run(cfg, before), schedule[|schedule| - 1]);
    }
  }

  // ----- which arrivals are taken up: read off the schedule -----

  function Prefix(schedule: seq<Event>): seq<Event>
    requires schedule != []
  {
    schedule[..|schedule| - 1]
  }

  /** The frames that arrive while the camera thread waits for one, warm-up included. */
  function FramesMet(cfg: Settings, schedule: seq<Event>): seq<Timestamp> {
    if schedule == [] then []
    else
      var met, e := FramesMet(cfg, Prefix(schedule)), Last(schedule);
      if e.FrameArrives? && Run(cfg, Prefix(schedule)).consumer == AwaitingFrame then met + [e.time] else met
  }

  /** The samples that arrive while the IMU thread captures and are not older than the last one taken. */
  function SamplesTaken(cfg: Settings, schedule: seq<Event>): seq<Timestamp> {
    if schedule == [] then []
    else
      var taken, e := SamplesTaken(cfg, Prefix(schedule)), Last(schedule);
      if e.ImuArrives? && Run(cfg, Prefix(schedule)).producer == Capturing && (taken == [] || Last(taken) <= e.time)
      then taken + [e.time] else taken
  }

  /** The frames taken up are those met, without the first ones of the warm-up. */
  lemma {:induction false} FramesAreThoseMet(cfg: Settings, schedule: seq<Event>)
    ensures var s, met := Run(cfg, schedule), FramesMet(cfg, schedule);
            && s.framesSeen == |met|
            && s.frames == if |met| <= cfg.warmupFrames then [] else met[cfg.warmupFrames..]
    decreases |schedule|
  {
    if schedule != [] {
      FramesAreThoseMet(cfg, Prefix(schedule));
      FramesStep(cfg, Run(cfg, Prefix(schedule)), Last(schedule), FramesMet(cfg, Prefix(schedule)));
    }
  }

  lemma {:induction false} FramesStep(cfg: Settings, s: State, e: Event, met: seq<Timestamp>)
    requires s.framesSeen == |met| && s.frames == if |met| <= cfg.warmupFrames then [] else met[cfg.warmupFrames..]
    ensures var r := Step(cfg, s, e);
            var now := if e.FrameArrives? && s.consumer == AwaitingFrame then met + [e.time] else met;
            r.framesSeen == |now| && r.frames == if |now| <= cfg.warmupFrames then [] else now[cfg.warmupFrames..]
  {
    if e.FrameArrives? {
      if s.consumer == AwaitingFrame && |met| >= cfg.warmupFrames {
        assert (met + [e.time])[cfg.warmupFrames..] == met[cfg.warmupFrames..] + [e.time];
      }
    } else {
      FramesUntouched(cfg, s, e);
    }
  }

  lemma {:induction false} FramesUntouched(cfg: Settings, s: State, e: Event)
    requires !e.FrameArrives?
    ensures Step(cfg, s, e).framesSeen == s.framesSeen && Step(cfg, s, e).frames == s.frames
  {
  }

  /** The samples accepted are those taken, in order, each numbered by its rank. */
  lemma {:induction false} AcceptedAreThoseTaken(cfg: Settings, schedule: seq<Event>)
    ensures var s := Run(cfg, schedule);
            && Times(s.accepted) == SamplesTaken(cfg, schedule) && Numbered(s.accepted)
            && s.previousImu == if s.accepted == [] then None else Some(Last(s.accepted).time)
    decreases |schedule|
  {
    if schedule != [] {
      AcceptedAreThoseTaken(cfg, Prefix(schedule));
      AcceptedStep(cfg, Run(cfg, Prefix(schedule)), Last(schedule), SamplesTaken(cfg, Prefix(schedule)));
    }
  }

  lemma {:induction false} AcceptedStep(cfg: Settings, s: State, e: Event, taken: seq<Timestamp>)
    requires Times(s.accepted) == taken && Numbered(s.accepted)
    requires s.previousImu == if s.accepted == [] then None else Some(Last(s.accepted).time)
    ensures var r := Step(cfg, s, e);
            var now := if e.ImuArrives? && s.producer == Capturing && (taken == [] || Last(taken) <= e.time)
                       then taken + [e.time] else taken;
            && Times(r.accepted) == now && Numbered(r.accepted)
            && r.previousImu == if r.accepted == [] then None else Some(Last(r.accepted).time)
  {
    if e.ImuArrives? {
      var x := Sample(|s.accepted|, e.time);
      assert Times(s.accepted + [x]) == Times(s.accepted) + [e.time];
    } else {
      AcceptedUntouched(cfg, s, e);
    }
  }

  lemma {:induction false} AcceptedUntouched(cfg: Settings, s: State, e: Event)
    requires !e.ImuArrives?
    ensures Step(cfg, s, e).accepted == s.accepted && Step(cfg, s, e).previousImu == s.previousImu
  {
  }

  // ----- when a sample is dropped -----

  /** A step drops at most one sample, and only the oldest one queued, in the get that follows a put that
      found the queue full; everything else stays queued. */
  lemma {:induction false} DropsOldestQueued(cfg: Settings, s: State, e: Event)
    ensures var r := Step(cfg, s, e);
            r.dropped != s.dropped ==>
              && e == ProducerStep && s.producer.Evicting? && s.queue != []
              && r.dropped == s.dropped + [s.queue[0]] && r.queue == s.queue[1..]
  {
  }

  /** The get is tried exactly when a put finds the queue at capacity. */
  lemma {:induction false} EvictsIffFull(cfg: Settings, s: State, e: Event)
    requires !s.producer.Evicting?
    ensures Step(cfg, s, e).producer.Evicting? <==>
              e == ProducerStep && s.producer.Putting? && |s.queue| >= cfg.capacity
    ensures e == ProducerStep && s.producer.Putting? && |s.queue| < cfg.capacity ==>
              Step(cfg, s, e).queue == s.queue + [s.producer.sample]
  {
  }

  /** How many samples the camera thread took from the queue since the put that found it full. */
  function TakenSinceFull(cfg: Settings, schedule: seq<Event>): nat {
    if schedule == [] then 0
    else
      var s := Run(cfg, Prefix(schedule));
      if !s.producer.Evicting? then 0
      else
        TakenSinceFull(cfg, Prefix(schedule)) +
        if Last(schedule) == ConsumerStep && s.consumer.Draining? && s.queue != [] then 1 else 0
  }

  /** So when the get comes, the queue is at capacity exactly if the camera thread took nothing in between. */
  lemma {:induction false} FullWhenEvictingIff(cfg: Settings, schedule: seq<Event>)
    requires cfg.capacity > 0 && Run(cfg, schedule).producer.Evicting?
    ensures |Run(cfg, schedule).queue| + TakenSinceFull(cfg, schedule) == cfg.capacity
    decreases |schedule|
  {
    if schedule != [] {
      var s, e := Run(cfg, Prefix(schedule)), Last(schedule);
      RunKeepsInvariant(cfg, Prefix(schedule));
      EvictingStep(cfg, s, e);
      if s.producer.Evicting? {
        FullWhenEvictingIff(cfg, Prefix(schedule));
      }
    }
  }

  lemma {:induction false} EvictingStep(cfg: Settings, s: State, e: Event)
    requires |s.queue| <= cfg.capacity && Step(cfg, s, e).producer.Evicting?
    ensures var r := Step(cfg, s, e);
            if s.producer.Evicting? then
              |s.queue| == |r.queue| + if e == ConsumerStep && s.consumer.Draining? && s.queue != [] then 1 else 0
            else |r.queue| == cfg.capacity
  {
  }

  lemma {:induction false} RunNext(cfg: Settings, schedule: seq<Event>, e: Event)
    ensures Run(cfg, schedule + [e]) == Step(cfg, Run(cfg, schedule), e)
  {
    assert (schedule + [e])[..|schedule|] == schedule;
  }

  /** The parts of a state the following input is about. */
  ghost predicate Looks(s: State, queue: seq<Sample>, producer: Producer, consumer: Consumer, accepted: nat,
                        last: Timestamp, dropped: seq<Sample>)
  {
    && s.queue == queue && s.producer == producer && s.consumer == consumer && s.dropped == dropped
    && |s.accepted| == accepted && (s.previousImu.Some? ==> s.previousImu.value <= last)
  }

  /** One sample captured and put while the camera thread waits. */
  lemma {:induction false} CapturedAndPut(cfg: Settings, schedule: seq<Event>, queue: seq<Sample>, n: nat, t: Timestamp)
    requires Looks(Run(cfg, schedule), queue, Capturing, AwaitingFrame, n, t, [])
    ensures var full, x := |queue| >= cfg.capacity, Sample(n, t);
            Looks(Run(cfg, schedule + [ImuArrives(t)] + [ProducerStep]), if full then queue else queue + [x],
                  if full then Evicting(x) else Capturing, AwaitingFrame, n + 1, t, [])
  {
    var s, x := Run(cfg, schedule), Sample(n, t);
    RunNext(cfg, schedule, ImuArrives(t));
    assert Looks(OnImu(s, t), queue, Putting(x), AwaitingFrame, n + 1, t, []);
    RunNext(cfg, schedule + [ImuArrives(t)], ProducerStep);
  }

  /** A frame arrives, the camera thread takes the oldest sample, and the get takes the next one. */
  lemma {:induction false} DrainedThenDropped(cfg: Settings, schedule: seq<Event>, a: Sample, b: Sample, x: Sample, n: nat,
                                              last: Timestamp, t: Timestamp)
    requires cfg.warmupFrames == 0 && Looks(Run(cfg, schedule), [a, b], Evicting(x), AwaitingFrame, n, last, [])
    ensures var before := schedule + [FrameArrives(t)] + [ConsumerStep];
            && Run(cfg, before).queue == [b] && Run(cfg, before).producer == Evicting(x)
            && Run(cfg, before + [ProducerStep]).dropped == [b]
  {
    var s := Run(cfg, schedule);
    RunNext(cfg, schedule, FrameArrives(t));
    var r := OnFrame(cfg, s, t);
    assert r.queue == [a, b] && r.consumer == Draining(t) && r.producer == Evicting(x) && r.dropped == [];
    RunNext(cfg, schedule + [FrameArrives(t)], ConsumerStep);
    assert OnConsumer(r).queue == [b] && OnConsumer(r).producer == Evicting(x) && OnConsumer(r).dropped == [];
    RunNext(cfg, schedule + [FrameArrives(t)] + [ConsumerStep], ProducerStep);
  }

  /** A sample can be dropped although the queue has room again: the camera thread drains between the put that
      found two samples and the get. */
  lemma {:induction false} DropsWithRoom()
    ensures var cfg := Settings(2, 0);
            var before := [] + [ImuArrives(1)] + [ProducerStep] + [ImuArrives(2)] + [ProducerStep] + [ImuArrives(3)]
                          + [ProducerStep] + [FrameArrives(9)] + [ConsumerStep];
            |Run(cfg, before).queue| == 1 < cfg.capacity && Run(cfg, before + [ProducerStep]).dropped == [Sample(1, 2)]
  {
    var cfg := Settings(2, 0);
    var one := [] + [ImuArrives(1)] + [ProducerStep];
    var two := one + [ImuArrives(2)] + [ProducerStep];
    var three := two + [ImuArrives(3)] + [ProducerStep];
    assert Looks(Run(cfg, []), [], Capturing, AwaitingFrame, 0, 1, []);
    CapturedAndPut(cfg, [], [], 0, 1);
    LooksLater(Run(cfg, one), [Sample(0, 1)], 1, 1, 2);
    CapturedAndPut(cfg, one, [Sample(0, 1)], 1, 2);
    LooksLater(Run(cfg, two), [Sample(0, 1), Sample(1, 2)], 2, 2, 3);
    CapturedAndPut(cfg, two, [Sample(0, 1), Sample(1, 2)], 2, 3);
    DrainedThenDropped(cfg, three, Sample(0, 1), Sample(1, 2), Sample(2, 3), 3, 3, 9);
  }

  lemma {:induction false} LooksLater(s: State, queue: seq<Sample>, n: nat, last: Timestamp, later: Timestamp)
    requires Looks(s, queue, Capturing, AwaitingFrame, n, last, []) && last <= later
    ensures Looks(s, queue, Capturing, AwaitingFrame, n, later, [])
  {
  }

  // ----- a frame taken up is tracked -----

  /** The camera thread on its own for n steps. */
  function ConsumerSteps(s: State, n: nat): State
    decreases n
  {
    if n == 0 then s else ConsumerSteps(OnConsumer(s), n - 1)
  }

  function Repeated(e: Event, n: nat): seq<Event> {
    if n == 0 then [] else [e] + Repeated(e, n - 1)
  }

  lemma {:induction false} RunOn(cfg: Settings, schedule: seq<Event>, n: nat)
    ensures Run(cfg, schedule + Repeated(ConsumerStep, n)) == ConsumerSteps(Run(cfg, schedule), n)
    decreases n
  {
    if n > 0 {
      RunConsumer(cfg, schedule);
      RunOn(cfg, schedule + [ConsumerStep], n - 1);
      assert schedule + Repeated(ConsumerStep, n) == (schedule + [ConsumerStep]) + Repeated(ConsumerStep, n - 1);
    } else {
      assert schedule + [] == schedule;
    }
  }

  lemma {:induction false} RunConsumer(cfg: Settings, schedule: seq<Event>)
    ensures Run(cfg, schedule + [ConsumerStep]) == OnConsumer(Run(cfg, schedule))
  {
    RunNext(cfg, schedule, ConsumerStep);
  }

  ghost predicate Later(s: State, t: Timestamp) {
    TrackedTimes(s.calls) == [] || Last(TrackedTimes(s.calls)) < t
  }

  /** The frame in progress ends in a call of track, or in a failure if it is not later than the last one. */
  ghost predicate EndsTracked(s: State, t: Timestamp, r: State) {
    if Later(s, t) then
      && r.consumer == AwaitingFrame && TrackedTimes(r.calls) == TrackedTimes(s.calls) + [t]
      && r.calls != [] && Last(r.calls) == Track(t)
    else r.consumer.Failed? && TrackedTimes(r.calls) == TrackedTimes(s.calls)
  }

  lemma {:induction false} TrackingEnds(s: State, t: Timestamp)
    requires ClockOk(s) && s.consumer == Tracking(t)
    ensures EndsTracked(s, t, OnConsumer(s))
  {
    TrackRefusedIff(s, t);
    CallAppended(s.calls, Track(t));
  }

  lemma {:induction false} RegisterMoves(s: State, t: Timestamp)
    requires ClockOk(s) && s.consumer == Registering(t) && s.pending != [] && s.pending[0].time <= t
    ensures var r := OnConsumer(s);
            ClockOk(r) && r.consumer == Registering(t) && r.pending == s.pending[1..] &&
            TrackedTimes(r.calls) == TrackedTimes(s.calls)
  {
    ClockOnConsumer(s);
    if s.lastTracker.Some? ==> s.pending[0].time >= s.lastTracker.value {
      RegisterNeverRefused(s);
    }
    CallAppended(s.calls, Register(s.pending[0].time));
  }

  /** Registering needs at most one step per pending sample, and two more to track. */
  lemma {:induction false} RegisteringEnds(s: State, t: Timestamp) returns (n: nat)
    requires ClockOk(s) && s.consumer == Registering(t)
    ensures n <= |s.pending| + 2 && EndsTracked(s, t, ConsumerSteps(s, n))
    decreases |s.pending|
  {
    var r := OnConsumer(s);
    if s.pending != [] && s.pending[0].time <= t {
      RegisterMoves(s, t);
      var k := RegisteringEnds(r, t);
      n := k + 1;
    } else {
      ClockOnConsumer(s);
      TrackingEnds(r, t);
      n := 2;
      assert ConsumerSteps(s, 2) == ConsumerSteps(r, 1) == OnConsumer(r);
    }
  }

  lemma {:induction false} DrainingEnds(s: State, t: Timestamp) returns (n: nat)
    requires ClockOk(s) && s.consumer == Draining(t)
    ensures n <= 2 * |s.queue| + |s.pending| + 3 && EndsTracked(s, t, ConsumerSteps(s, n))
    decreases |s.queue|
  {
    var r := OnConsumer(s);
    ClockOnConsumer(s);
    var k;
    if s.queue == [] {
      k := RegisteringEnds(r, t);
    } else {
      k := DrainingEnds(r, t);
    }
    n := k + 1;
  }

  /** After the warm-up, a frame that arrives while the camera thread waits is tracked after enough of its
      steps, if it is later than the last one tracked; if not, the thread fails. */
  lemma {:induction false} FrameIsTracked(cfg: Settings, schedule: seq<Event>, t: Timestamp) returns (n: nat)
    requires cfg.capacity > 0 && Run(cfg, schedule).consumer == AwaitingFrame
    requires Run(cfg, schedule).framesSeen >= cfg.warmupFrames
    ensures EndsTracked(Run(cfg, schedule), t, Run(cfg, schedule + [FrameArrives(t)] + Repeated(ConsumerStep, n)))
  {
    var s := Run(cfg, schedule);
    RunKeepsInvariant(cfg, schedule);
    RunNext(cfg, schedule, FrameArrives(t));
    ClockOnFrame(cfg, s, t);
    n := DrainingEnds(OnFrame(cfg, s, t), t);
    RunOn(cfg, schedule + [FrameArrives(t)], n);
  }
}
