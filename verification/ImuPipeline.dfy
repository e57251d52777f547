/** The two threads of the RealSense examples as the code that moves the state of ImuProtocol: each
    method is one atomic piece of imu_thread or camera_thread, and does exactly what the corresponding
    step says. RegisterImuUntil is the source's drain-and-register function run without interruption.

    A schedule decides which thread moves next. Executing any schedule on the objects ends in the state the
    protocol's steps lead to, so the invariant and everything that follows from it hold of them. */
module ImuPipeline {
  import opened Wrappers
  import opened OdometryClock
  import opened ImuProtocol

  class Pipeline {
    const settings: Settings
    const odometry: Odometry
    var queue: seq<Sample>
    var previousImu: Option<Timestamp>
    var producer: Producer
    var framesSeen: nat
    var pending: seq<Sample>
    var lastTracker: Option<Timestamp>
    var consumer: Consumer
    ghost var accepted: seq<Sample>
    ghost var registered: seq<Sample>
    ghost var dropped: seq<Sample>
    ghost var late: seq<Sample>
    ghost var frames: seq<Timestamp>
    ghost var calls: seq<Call>
    var acceptedCount: nat

    ghost predicate Valid()
      reads this
    {
      acceptedCount == |accepted| && odometry.imuFusionEnabled
    }

    ghost function Snapshot(): State
      reads this, odometry
    {
      State(queue, previousImu, producer, framesSeen, pending, lastTracker, consumer, odometry.State(),
            accepted, registered, dropped, late, frames, calls)
    }

    constructor (settings: Settings)
      ensures Valid() && Snapshot() == InitialState && this.settings == settings && fresh(odometry)
    {
      this.settings := settings;
      odometry := new Odometry(true);
      queue, previousImu, producer, framesSeen := [], None, Capturing, 0;
      pending, lastTracker, consumer := [], None, AwaitingFrame;
      accepted, registered, dropped, late, frames, calls := [], [], [], [], [], [];
      acceptedCount := 0;
    }

    // ----- IMU thread -----

    /** A captured sample older than its predecessor is skipped; any other is about to be queued. */
    method CaptureImu(t: Timestamp)
      requires Valid()
      modifies this
      ensures Valid() && Snapshot() == OnImu(old(Snapshot()), t)
    {
      if producer != Capturing {
        return;
      }
      if previousImu.Some? {
        if t < previousImu.value {
          return;
        }
      }
      previousImu := Some(t);
      var sample := Sample(acceptedCount, t);
      accepted := accepted + [sample];
      acceptedCount := acceptedCount + 1;
      producer := Putting(sample);
    }

    method PutNowait(x: Sample) returns (ok: bool)
      modifies `queue
      ensures ok <==> |old(queue)| < settings.capacity
      ensures queue == if ok then old(queue) + [x] else old(queue)
    {
      ok := |queue| < settings.capacity;
      if ok {
        queue := queue + [x];
      }
    }

    method GetNowait() returns (x: Option<Sample>)
      modifies `queue
      ensures old(queue) == [] ==> x == None && queue == []
      ensures old(queue) != [] ==> x == Some(old(queue)[0]) && queue == old(queue)[1..]
    {
      if queue == [] {
        return None;
      }
      x := Some(queue[0]);
      queue := queue[1..];
    }

    method AdvanceProducer()
      requires Valid()
      modifies this
      ensures Valid() && Snapshot() == OnProducer(settings, old(Snapshot()))
    {
      match producer
      case Putting(x) =>
        var ok := PutNowait(x);
        producer := if ok then Capturing else Evicting(x);
      case Evicting(x) =>
        var oldest := GetNowait();
        if oldest.Some? {
          dropped := dropped + [oldest.value];
        }
        producer := PuttingAgain(x);
      case PuttingAgain(x) =>
        var ok := PutNowait(x);
        producer := if ok then Capturing else Crashed;
      case _ =>
    }

    // ----- camera thread -----

    method ReceiveFrame(t: Timestamp)
      requires Valid()
      modifies this
      ensures Valid() && Snapshot() == OnFrame(settings, old(Snapshot()), t)
    {
      if consumer == AwaitingFrame {
        if framesSeen >= settings.warmupFrames {
          frames := frames + [t];
          consumer := Draining(t);
        }
        framesSeen := framesSeen + 1;
      }
    }

    /** The body of the registration loop for the oldest pending sample. */
    method RegisterOldest()
      requires Valid() && pending != []
      modifies this, odometry
      ensures Valid() && Snapshot() == RegisterFirst(old(Snapshot()))
    {
      var x := pending[0];
      pending := pending[1..];
      if lastTracker.Some? {
        if x.time < lastTracker.value {
          late := late + [x];
          return;
        }
      }
      var verdict := odometry.RegisterImuMeasurement(0, x.time);
      if verdict != Accepted {
        consumer := Failed(verdict);
        return;
      }
      registered := registered + [x];
      calls := calls + [Register(x.time)];
      lastTracker := Some(x.time);
    }

    method TrackNow(t: Timestamp)
      requires Valid()
      modifies this, odometry
      ensures Valid() && Snapshot() == TrackFrame(old(Snapshot()), t)
    {
      var verdict := odometry.Track(t);
      if verdict != Accepted {
        consumer := Failed(verdict);
        return;
      }
      calls := calls + [Track(t)];
      lastTracker := Some(t);
      consumer := AwaitingFrame;
    }

    method AdvanceConsumer()
      requires Valid()
      modifies this, odometry
      ensures Valid() && Snapshot() == OnConsumer(old(Snapshot()))
    {
      match consumer
      case Draining(t) =>
        var x := GetNowait();
        if x.Some? {
          pending := pending + [x.value];
        } else {
          consumer := Registering(t);
        }
      case Registering(t) =>
        if pending != [] && pending[0].time <= t {
          RegisterOldest();
        } else {
          consumer := Tracking(t);
        }
      case Tracking(t) =>
        TrackNow(t);
      case _ =>
    }

    // ----- whole runs -----

    method Advance(e: Event)
      requires Valid()
      modifies this, odometry
      ensures Valid() && Snapshot() == Step(settings, old(Snapshot()), e)
    {
      match e
      case ImuArrives(t) => CaptureImu(t);
      case ProducerStep => AdvanceProducer();
      case FrameArrives(t) => ReceiveFrame(t);
      case ConsumerStep => AdvanceConsumer();
    }

    /** Running the threads under any schedule ends in the state the protocol says. */
    method Execute(schedule: seq<Event>)
      requires Valid() && Snapshot() == InitialState && settings.capacity > 0
      modifies this, odometry
      ensures Valid() && Snapshot() == Run(settings, schedule) && Invariant(settings, Snapshot())
    {
      for k := 0 to |schedule|
        invariant Valid() && Snapshot() == Run(settings, schedule[..k])
      {
        assert schedule[..k + 1][..k] == schedule[..k];
        Advance(schedule[k]);
      }
      assert schedule[..|schedule|] == schedule;
      RunKeepsInvariant(settings, schedule);
    }

    // ----- register_imu_until, uninterrupted -----

    /** Drain loop: everything queued becomes pending, in order. */
    method DrainQueue(t: Timestamp)
      requires Valid() && consumer == Draining(t)
      modifies this
      ensures Valid() && Snapshot() ==
              old(Snapshot()).(queue := [], pending := old(pending) + old(queue), consumer := Registering(t))
    {
      var x := GetNowait();
      while x.Some?
        invariant Valid()
        invariant old(pending) + old(queue) == pending + (if x.Some? then [x.value] else []) + queue
        invariant x == None ==> queue == []
        invariant Snapshot() == old(Snapshot()).(queue := queue, pending := pending)
        decreases |queue|, if x.Some? then 1 else 0
      {
        pending := pending + [x.value];
        x := GetNowait();
      }
      consumer := Registering(t);
    }

    /** Registration loop: the due prefix is registered, except for samples older than the last tracker
        call; the rest stays pending. */
    method RegisterPending(t: Timestamp)
      requires Valid() && settings.capacity > 0 && Reachable(settings, Snapshot()) && consumer == Registering(t)
      modifies this, odometry
      ensures Valid() && Reachable(settings, Snapshot()) && consumer == Tracking(t)
      ensures var n := DueCount(old(pending), t);
              && pending == old(pending)[n..] && queue == old(queue)
              && registered == old(registered) + Fresh(old(pending)[..n], old(lastTracker))
              && late == old(late) + Stale(old(pending)[..n], old(lastTracker))
    {
      ghost var all, last, k := pending, lastTracker, 0;
      ghost var registered0, late0 := registered, late;
      PendingInOrder(settings, Snapshot());
      while pending != [] && pending[0].time <= t
        invariant Valid() && Reachable(settings, Snapshot()) && consumer == Registering(t) && queue == old(queue)
        invariant k <= DueCount(all, t) && pending == all[k..]
        invariant registered == registered0 + Fresh(all[..k], last) && late == late0 + Stale(all[..k], last)
        invariant SameStaleness(all, k, last, lastTracker)
        decreases |pending|
      {
        DueNext(all, t, k);
        SplitNext(all, last, k);
        StalenessNext(all, k, last, lastTracker);
        OldestNeverRefused(settings, Snapshot());
        StepIsReachable(settings, Snapshot(), ConsumerStep);
        RegisterOldest();
        k := k + 1;
      }
      DueEnds(all, t, k);
      StepIsReachable(settings, Snapshot(), ConsumerStep);
      consumer := Tracking(t);
    }

    /** register_imu_until: with no capture in between, afterwards the queue is empty, exactly the
        buffered samples later than the frame are still pending, and the others were registered in order
        of capture unless they predate the last tracker call. */
    method RegisterImuUntil(t: Timestamp)
      requires Valid() && settings.capacity > 0 && Reachable(settings, Snapshot()) && consumer == Draining(t)
      modifies this, odometry
      ensures Valid() && Reachable(settings, Snapshot()) && consumer == Tracking(t) && queue == []
      ensures var buffered := old(pending) + old(queue); var n := DueCount(buffered, t);
              && pending == buffered[n..]
              && registered == old(registered) + Fresh(buffered[..n], old(lastTracker))
              && late == old(late) + Stale(buffered[..n], old(lastTracker))
    {
      ghost var before := Snapshot();
      DrainQueue(t);
      DrainIsReachable(settings, before, t);
      RegisterPending(t);
    }
  }

  // ----- what a due prefix is -----

  function DueCount(xs: seq<Sample>, t: Timestamp): (n: nat)
    ensures n <= |xs|
  {
    if xs == [] || xs[0].time > t then 0 else 1 + DueCount(xs[1..], t)
  }

  /** On an ordered buffer the due prefix is everything up to t, and nothing later. */
  lemma {:induction false} DueMeaning(xs: seq<Sample>, t: Timestamp)
    requires InOrder(xs)
    ensures forall i :: 0 <= i < |xs| ==> (i < DueCount(xs, t) <==> xs[i].time <= t)
  {
    if xs != [] && xs[0].time <= t {
      DueMeaning(xs[1..], t);
      forall i | 0 <= i < |xs| ensures i < DueCount(xs, t) <==> xs[i].time <= t {
        if i > 0 {
          assert xs[i] == xs[1..][i - 1];
        }
      }
    } else {
      forall i | 0 <= i < |xs| ensures xs[i].time > t {
        if i > 0 {
          assert Earlier(xs[0], xs[i]);
        }
      }
    }
  }

  predicate IsStale(x: Sample, last: Option<Timestamp>) {
    last.Some? && x.time < last.value
  }

  function Fresh(xs: seq<Sample>, last: Option<Timestamp>): seq<Sample> {
    if xs == [] then [] else
    Fresh(xs[..|xs| - 1], last) + if IsStale(xs[|xs| - 1], last) then [] else [xs[|xs| - 1]]
  }

  function Stale(xs: seq<Sample>, last: Option<Timestamp>): seq<Sample> {
    if xs == [] then [] else
    Stale(xs[..|xs| - 1], last) + if IsStale(xs[|xs| - 1], last) then [xs[|xs| - 1]] else []
  }

  lemma {:induction false} DueNext(xs: seq<Sample>, t: Timestamp, k: nat)
    requires k < |xs| && k <= DueCount(xs, t) && xs[k].time <= t
    ensures k + 1 <= DueCount(xs, t)
  {
    if k > 0 {
      DueNext(xs[1..], t, k - 1);
    }
  }

  lemma {:induction false} DueEnds(xs: seq<Sample>, t: Timestamp, k: nat)
    requires k <= DueCount(xs, t) && (k == |xs| || xs[k].time > t)
    ensures k == DueCount(xs, t)
  {
    if k > 0 {
      DueEnds(xs[1..], t, k - 1);
    }
  }

  lemma {:induction false} SplitNext(xs: seq<Sample>, last: Option<Timestamp>, k: nat)
    requires k < |xs|
    ensures Fresh(xs[..k + 1], last) == Fresh(xs[..k], last) + if IsStale(xs[k], last) then [] else [xs[k]]
    ensures Stale(xs[..k + 1], last) == Stale(xs[..k], last) + if IsStale(xs[k], last) then [xs[k]] else []
  {
    assert xs[..k + 1][..k] == xs[..k];
  }

  /** Registering moves the last timestamp, but never past a sample still pending: every remaining sample
      is stale against it exactly if it was stale before the loop. */
  ghost predicate SameStaleness(xs: seq<Sample>, k: nat, last: Option<Timestamp>, now: Option<Timestamp>) {
    forall i :: k <= i < |xs| ==> (IsStale(xs[i], now) <==> IsStale(xs[i], last))
  }

  lemma {:induction false} StalenessNext(xs: seq<Sample>, k: nat, last: Option<Timestamp>, now: Option<Timestamp>)
    requires InOrder(xs) && k < |xs| && SameStaleness(xs, k, last, now)
    ensures SameStaleness(xs, k + 1, last, if IsStale(xs[k], now) then now else Some(xs[k].time))
  {
    forall i | k + 1 <= i < |xs| && !IsStale(xs[k], now)
      ensures !IsStale(xs[i], Some(xs[k].time)) && !IsStale(xs[i], last)
    {
      assert Earlier(xs[k], xs[i]);
    }
  }

  // ----- states some schedule leads to -----

  ghost predicate Reachable(cfg: Settings, s: State) {
    exists schedule :: s == Run(cfg, schedule)
  }

  lemma {:induction false} StepIsReachable(cfg: Settings, s: State, e: Event)
    requires Reachable(cfg, s)
    ensures Reachable(cfg, Step(cfg, s, e))
  {
    var schedule :| s == Run(cfg, schedule);
    assert (schedule + [e])[..|schedule|] == schedule;
    assert Step(cfg, s, e) == Run(cfg, schedule + [e]);
  }

  lemma {:induction false} PendingInOrder(cfg: Settings, s: State)
    requires cfg.capacity > 0 && Reachable(cfg, s)
    ensures InOrder(s.pending)
  {
    var schedule :| s == Run(cfg, schedule);
    RunKeepsInvariant(cfg, schedule);
    forall i, j | 0 <= i < j < |s.pending| ensures Earlier(s.pending[i], s.pending[j]) {
      assert Earlier(Flow(s)[i], Flow(s)[j]);
    }
  }

  lemma {:induction false} OldestNeverRefused(cfg: Settings, s: State)
    requires cfg.capacity > 0 && Reachable(cfg, s) && s.pending != []
    ensures !IsStale(s.pending[0], s.lastTracker) ==> RegisterVerdict(s.clock, s.pending[0].time) == Accepted
  {
    var schedule :| s == Run(cfg, schedule);
    RunKeepsInvariant(cfg, schedule);
    if !IsStale(s.pending[0], s.lastTracker) {
      RegisterNeverRefused(s);
    }
  }

  lemma {:induction false} DrainIsReachable(cfg: Settings, s: State, t: Timestamp)
    requires Reachable(cfg, s) && s.consumer == Draining(t)
    ensures Reachable(cfg, s.(queue := [], pending := s.pending + s.queue, consumer := Registering(t)))
    decreases |s.queue|
  {
    StepIsReachable(cfg, s, ConsumerStep);
    if s.queue == [] {
      assert s.pending + s.queue == s.pending;
    } else {
      var r := OnConsumer(s);
      DrainIsReachable(cfg, r, t);
      assert r.pending + r.queue == s.pending + s.queue;
    }
  }
}
