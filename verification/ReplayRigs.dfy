/** The replay classes (libs/camera_rig_edex): the rig that owns the event list and reverses it in place,
    and the two wrappers that drive it. Every method is tied to the step functions of Replay,
    ShuttleReplay and RepeatReplay, so what is proved there about whole runs holds of these objects.

    The list is kept in replay order here and read from the right end there; the two are related by reversing
    it, which is its own inverse. */
module ReplayRigs {
  import opened Wrappers
  import opened Replay
  import S = ShuttleReplay
  import R = RepeatReplay

  function Reversed(events: seq<Event>): (r: seq<Event>)
    ensures |r| == |events| && forall i :: 0 <= i < |r| ==> r[i] == events[|events| - 1 - i]
  {
    if events == [] then [] else Reversed(events[1..]) + [events[0]]
  }

  /** The log in recording order, of a list kept in replay order. */
  function InOrder(events: seq<Event>, forward: bool): seq<Event> {
    if forward then events else Reversed(events)
  }

  lemma {:induction false} EventInOrder(events: seq<Event>, forward: bool, i: nat)
    requires i < |events|
    ensures EventAt(InOrder(events, forward), forward, i) == events[i]
  {
  }

  // ----- start: sorting the recorded events -----

  predicate Earlier(a: Event, b: Event, forward: bool) {
    if forward then a.time <= b.time else a.time >= b.time
  }

  ghost predicate SortedFor(events: seq<Event>, forward: bool) {
    forall i, j {:trigger Earlier(events[i], events[j], forward)} ::
      0 <= i < j < |events| ==> Earlier(events[i], events[j], forward)
  }

  lemma {:induction false} InsertKeepsSorted(done: seq<Event>, e: Event, k: nat, forward: bool)
    requires SortedFor(done, forward) && k <= |done|
    requires k > 0 ==> Earlier(done[k - 1], e, forward)
    requires k < |done| ==> Earlier(e, done[k], forward)
    ensures SortedFor(done[..k] + [e] + done[k..], forward)
  {
    var r := done[..k] + [e] + done[k..];
    forall i, j | 0 <= i < j < |r| ensures Earlier(r[i], r[j], forward) {
      if i < k - 1 && j == k {
        assert Earlier(done[i], done[k - 1], forward);
      } else if i == k && j > k + 1 {
        assert Earlier(done[k], done[j - 1], forward);
      } else if i < k < j {
        if i < k - 1 {
          assert Earlier(done[i], done[k - 1], forward);
        }
        if k < j - 1 {
          assert Earlier(done[k], done[j - 1], forward);
        }
      } else if j < k {
        assert Earlier(done[i], done[j], forward);
      } else if i > k {
        assert Earlier(done[i - 1], done[j - 1], forward);
      }
    }
  }

  lemma {:induction false} InsertAddsOne(done: seq<Event>, e: Event, k: nat)
    requires k <= |done|
    ensures multiset(done[..k] + [e] + done[k..]) == multiset(done) + multiset{e}
  {
    assert done == done[..k] + done[k..];
  }

  /** Stands for the library's sort: callers learn only that the result is sorted and a permutation, so
      events with equal timestamps may come in any order. */
  method SortEvents(recorded: seq<Event>, forward: bool) returns (sorted: seq<Event>)
    ensures SortedFor(sorted, forward) && multiset(sorted) == multiset(recorded)
  {
    sorted := [];
    var n := 0;
    while n < |recorded|
      invariant n <= |recorded|
      invariant SortedFor(sorted, forward) && multiset(sorted) == multiset(recorded[..n])
    {
      var k := |sorted|;
      while k > 0 && !Earlier(sorted[k - 1], recorded[n], forward)
        invariant 0 <= k <= |sorted|
        invariant k < |sorted| ==> Earlier(recorded[n], sorted[k], forward)
      {
        k := k - 1;
      }
      InsertKeepsSorted(sorted, recorded[n], k, forward);
      InsertAddsOne(sorted, recorded[n], k);
      assert recorded[..n + 1] == recorded[..n] + [recorded[n]];
      sorted := sorted[..k] + [recorded[n]] + sorted[k..];
      n := n + 1;
    }
    assert recorded[..n] == recorded;
  }

  /** What start() leaves: the sorted events from the first frame on. */
  ghost predicate Started(events: seq<Event>, recorded: seq<Event>, forward: bool) {
    exists sorted: seq<Event> ::
      && SortedFor(sorted, forward) && multiset(sorted) == multiset(recorded)
      && events == sorted[Skip(sorted, true, 0)..]
  }

  /** Exactly the events before the first frame are dropped, and none of them is a frame. */
  lemma {:induction false} StartKeepsFrames(events: seq<Event>, recorded: seq<Event>, forward: bool)
    returns (dropped: seq<Event>)
    requires Started(events, recorded, forward)
    ensures multiset(recorded) == multiset(dropped) + multiset(events)
    ensures forall i :: 0 <= i < |dropped| ==> dropped[i].Imu?
    ensures SortedFor(dropped + events, forward) && (events != [] ==> events[0].Frame?)
    ensures forall i, j :: 0 <= i < j < |events| ==>
              if forward then events[i].time <= events[j].time else events[i].time >= events[j].time
  {
    var sorted: seq<Event> :|
      SortedFor(sorted, forward) && multiset(sorted) == multiset(recorded) && events == sorted[Skip(sorted, true, 0)..];
    var n := Skip(sorted, true, 0);
    dropped := sorted[..n];
    assert sorted == dropped + events;
    forall i, j | 0 <= i < j < |events| ensures Earlier(events[i], events[j], forward) {
      assert Earlier(sorted[n + i], sorted[n + j], forward);
    }
    R.ImusAreImu(sorted, 0);
    SkipPassesNoFrame(sorted, true, 0);
  }

  /** A forward rig that has started holds a log the wrappers can replay. */
  lemma {:induction false} StartedForward(events: seq<Event>, recorded: seq<Event>)
    requires Started(events, recorded, true)
    ensures StartedLog(InOrder(events, true))
  {
    var dropped := StartKeepsFrames(events, recorded, true);
  }

  /** A 32-bit int converted to a 64-bit size. */
  function AsSize(number: int): nat {
    if number < 0 then number % 0x1_0000_0000_0000_0000 else number
  }

  lemma {:induction false} NoSuchRank(log: seq<Event>, forward: bool, frame: nat, i: nat)
    requires i <= |log| && frame >= |log| - i
    ensures FrameIndex(log, forward, frame, i) == |log|
    decreases |log| - i
  {
    if i < |log| {
      NoSuchRank(log, forward, if EventAt(log, forward, i).Frame? && frame > 0 then frame - 1 else frame, i + 1);
    }
  }

  /** The positions of the frames among the first j events of the list. */
  ghost function FramesIn(events: seq<Event>, j: int): set<int>
    requires 0 <= j <= |events|
  {
    set k | 0 <= k < j && events[k].Frame?
  }

  lemma {:induction false} SameFrames(events: seq<Event>, forward: bool)
    ensures forall j: nat :: j <= |events| ==> FramesAmong(InOrder(events, forward), forward, j) == FramesIn(events, j)
  {
    forall j: nat | j <= |events| ensures FramesAmong(InOrder(events, forward), forward, j) == FramesIn(events, j) {
      forall k: nat | k < j ensures EventAt(InOrder(events, forward), forward, k) == events[k] {
        EventInOrder(events, forward, k);
      }
    }
  }

  /** Where seeking the frame of rank n lands in the list. */
  lemma {:induction false} SeekInList(events: seq<Event>, b: Base, n: nat)
    requires b.log == InOrder(events, b.forward)
    ensures match SeekFrame(b, n)
            case None => |FramesIn(events, |events|)| <= n
            case Some(c) =>
              && c.index < |events| && events[c.index].Frame?
              && |FramesIn(events, c.index)| == n && |FramesIn(events, |events|)| > n
  {
    SeekLands(b, n);
    SameFrames(events, b.forward);
    if SeekFrame(b, n).Some? {
      EventInOrder(events, b.forward, SeekFrame(b, n).value.index);
    }
  }

  class CameraRigEdex {
    var events: seq<Event>  // in replay order
    var eventIndex: nat
    var frameIndex: nat
    var replayForward: bool

    /** The abstract rig: the log in recording order, and the cursor. */
    ghost function AsBase(): Base
      reads this
    {
      Base(InOrder(events, replayForward), replayForward, eventIndex, frameIndex)
    }

    ghost predicate Valid()
      reads this
    {
      eventIndex <= |events|
    }

    constructor ()
      ensures Valid() && AsBase() == Base([], true, 0, 0)
    {
      events, eventIndex, frameIndex, replayForward := [], 0, 0, true;
    }

    /** What is read is appended to what the list already holds, and the cursor stays where it was. */
    method Start(recorded: seq<Event>)
      modifies this`events
      ensures Started(events, old(events) + recorded, replayForward)
      ensures eventIndex == 0 ==> Valid()
    {
      var sorted := SortEvents(events + recorded, replayForward);
      var first := 0;
      while first < |sorted| && !sorted[first].Frame?
        invariant first <= |sorted| && Skip(sorted, true, 0) == Skip(sorted, true, first)
      {
        first := first + 1;
      }
      events := sorted[first..];
    }

    predicate IsFinished()
      reads this
    {
      eventIndex >= |events|
    }

    /** The number is compared as a size, so a negative one is larger than any rank. The cursor ends on the frame
        that has as many frames before it as the number says, unless there are too few. */
    method SetCurrentFrame(number: int) returns (found: bool)
      requires Valid() && -0x8000_0000 <= number < 0x8000_0000
      modifies this`eventIndex
      ensures Valid()
      ensures match SeekFrame(old(AsBase()), AsSize(number))
              case Some(b) => found && AsBase() == b
              case None => !found && AsBase() == old(AsBase())
      ensures number < 0 && |events| <= AsSize(number) ==> !found
      ensures number >= 0 ==> (found <==> |FramesIn(events, |events|)| > number)
      ensures found && number >= 0 ==>
                && eventIndex < |events| && events[eventIndex].Frame?
                && |FramesIn(events, eventIndex)| == number
    {
      SeekInList(events, AsBase(), AsSize(number));
      var frame := AsSize(number);
      var framesCounter := 0;
      if |events| <= frame {
        NoSuchRank(AsBase().log, replayForward, frame, 0);
      }
      ghost var log := AsBase().log;
      for i := 0 to |events|
        invariant framesCounter <= frame && AsBase() == old(AsBase())
        invariant FrameIndex(log, replayForward, frame, 0) == FrameIndex(log, replayForward, frame - framesCounter, i)
      {
        EventInOrder(events, replayForward, i);
        if events[i].Frame? {
          if framesCounter == frame {
            eventIndex := i;
            return true;
          }
          framesCounter := framesCounter + 1;
        }
      }
      return false;
    }

    method SetReplayForward(forward: bool)
      requires Valid()
      modifies this
      ensures Valid() && AsBase() == Turn(old(AsBase()), forward)
    {
      if forward != replayForward {
        replayForward := forward;
        events := Reversed(events);
        eventIndex := |events| - eventIndex;
      }
    }

    /** Plays IMU events up to the next frame; false if there is none left. */
    method HandleImuEvents() returns (more: bool, imus: seq<int>)
      requires eventIndex < |events|
      modifies this`eventIndex
      ensures eventIndex == Skip(AsBase().log, replayForward, old(eventIndex)) && more == (eventIndex < |events|)
      ensures imus == if replayForward then TimesBetween(AsBase().log, true, old(eventIndex), eventIndex) else []
      ensures more ==> events[eventIndex].Frame?
    {
      ghost var log := AsBase().log;
      imus := [];
      while events[eventIndex].Imu?
        invariant old(eventIndex) <= eventIndex < |events|
        invariant Skip(log, replayForward, old(eventIndex)) == Skip(log, replayForward, eventIndex)
        invariant imus == if replayForward then TimesBetween(log, true, old(eventIndex), eventIndex) else []
        decreases |events| - eventIndex
      {
        EventInOrder(events, replayForward, eventIndex);
        if replayForward {
          imus := imus + [events[eventIndex].time];
        }
        eventIndex := eventIndex + 1;
        if eventIndex >= |events| {
          return false, imus;
        }
      }
      EventInOrder(events, replayForward, eventIndex);
      more := true;
    }

    method GetFrame() returns (frame: Option<int>, imus: seq<int>)
      requires Valid()
      modifies this`eventIndex, this`frameIndex
      ensures Valid() && Played(AsBase(), frame, imus) == PlayNext(old(AsBase()))
    {
      frame, imus := None, [];
      if IsFinished() {
        return;
      }
      var more: bool;
      more, imus := HandleImuEvents();
      if !more {
        return;
      }
      EventInOrder(events, replayForward, eventIndex);
      frame := Some(events[eventIndex].time);
      frameIndex := frameIndex + 1;
      eventIndex := eventIndex + 1;
    }

    function GetFirstTimestamp(): int
      requires events != []
      reads this
      ensures GetFirstTimestamp() == FirstTime(AsBase())
    {
      EventInOrder(events, replayForward, 0);
      events[0].time
    }

    function GetLastTimestamp(): int
      requires events != []
      reads this
      ensures GetLastTimestamp() == LastTime(AsBase())
    {
      EventInOrder(events, replayForward, |events| - 1);
      events[|events| - 1].time
    }
  }

  class ShuttleCameraRigEdex {
    const base: CameraRigEdex
    const numLoops: nat
    var currentLoop: nat
    ghost var log: seq<Event>
    ghost var calls: nat

    ghost function AsShuttle(): S.Shuttle
      reads this, base
    {
      S.Shuttle(base.AsBase(), currentLoop)
    }

    /** The object is where that many calls on that log lead. */
    ghost predicate Valid()
      reads this, base
    {
      base.Valid() && AsShuttle() == S.After(numLoops, log, calls)
    }

    constructor (base: CameraRigEdex, numLoops: nat)
      requires base.AsBase() == Base([], true, 0, 0)
      ensures Valid() && log == [] && calls == 0 && this.base == base && this.numLoops == numLoops
    {
      this.base, this.numLoops, currentLoop := base, numLoops, 0;
      log, calls := [], 0;
    }

    method Start(recorded: seq<Event>)
      requires Valid() && log == [] && calls == 0
      modifies this`log, base`events
      ensures Valid() && calls == 0 && Started(log, recorded, true) && StartedLog(log)
    {
      base.Start(recorded);
      log := base.AsBase().log;
      StartedForward(base.events, recorded);
    }

    method CheckEndOfSequence() returns (more: bool)
      requires base.Valid()
      modifies this`currentLoop, base
      ensures base.Valid() && AsShuttle() == S.TurnAtEnd(old(AsShuttle())) && more == (currentLoop < numLoops)
    {
      if base.IsFinished() {
        if !base.replayForward {
          currentLoop := currentLoop + 1;
        }
        base.SetReplayForward(!base.replayForward);
      }
      more := currentLoop < numLoops;
    }

    method NextFrame() returns (frame: Option<int>)
      requires base.Valid()
      modifies this`currentLoop, base
      ensures base.Valid() && S.Call(AsShuttle(), frame) == S.GetFrame(numLoops, old(AsShuttle()))
    {
      frame := None;
      var more := CheckEndOfSequence();
      if more {
        var time, imus := base.GetFrame();
        if time.Some? {
          frame := Some(AdjustTimestamp(time.value));
        }
      }
    }

    /** getFrame, counted: call by call the object returns what the run says. */
    method GetFrame() returns (frame: Option<int>)
      requires Valid()
      modifies this, base
      ensures Valid() && log == old(log) && calls == old(calls) + 1
      ensures frame == S.Result(numLoops, log, old(calls))
    {
      frame := NextFrame();
      S.AfterNext(numLoops, log, calls);
      calls := calls + 1;
    }

    function AdjustTimestamp(timestamp: int): int
      requires base.events != []
      reads this, base
      ensures AdjustTimestamp(timestamp) == S.AdjustTimestamp(AsShuttle(), timestamp)
    {
      var duration := S.Abs(base.GetLastTimestamp() - base.GetFirstTimestamp());
      var maxTime := S.Max(base.GetLastTimestamp(), base.GetFirstTimestamp());
      MultipleIsProduct(currentLoop, 2 * (duration + FRAME_DELTA));
      (if base.replayForward then timestamp else 2 * maxTime + FRAME_DELTA - timestamp)
        + 2 * currentLoop * (duration + FRAME_DELTA)
    }
  }

  class RepeatedCameraRigEdex {
    const base: CameraRigEdex
    const sequenceNumRepeats: nat
    var currentSequenceRepeats: nat
    ghost var log: seq<Event>
    ghost var calls: nat

    ghost function AsRepeat(): R.Repeat
      reads this, base
    {
      R.Repeat(base.AsBase(), currentSequenceRepeats)
    }

    ghost predicate Valid()
      reads this, base
    {
      base.Valid() && AsRepeat() == R.After(sequenceNumRepeats, log, calls)
    }

    constructor (base: CameraRigEdex, sequenceNumRepeats: nat)
      requires base.AsBase() == Base([], true, 0, 0)
      ensures Valid() && log == [] && calls == 0 && this.base == base && this.sequenceNumRepeats == sequenceNumRepeats
    {
      this.base, this.sequenceNumRepeats, currentSequenceRepeats := base, sequenceNumRepeats, 0;
      log, calls := [], 0;
    }

    method Start(recorded: seq<Event>)
      requires Valid() && log == [] && calls == 0
      modifies this`log, base`events
      ensures Valid() && calls == 0 && Started(log, recorded, true) && StartedLog(log)
    {
      base.Start(recorded);
      log := base.AsBase().log;
      StartedForward(base.events, recorded);
    }

    method CheckEndOfSequence() returns (more: bool)
      requires base.Valid()
      modifies this`currentSequenceRepeats, base
      ensures base.Valid() && AsRepeat() == R.RewindAtEnd(old(AsRepeat()))
      ensures more == (currentSequenceRepeats < sequenceNumRepeats)
    {
      if base.IsFinished() {
        currentSequenceRepeats := currentSequenceRepeats + 1;
        var found := base.SetCurrentFrame(0);
      }
      more := currentSequenceRepeats < sequenceNumRepeats;
    }

    /** The base calls back while it plays, before it is asked for anything else, so the callbacks of one
        call are adjusted together here. */
    method NextFrame() returns (frame: Option<int>, imus: seq<int>)
      requires base.Valid()
      modifies this`currentSequenceRepeats, base
      ensures base.Valid()
      ensures R.Call(AsRepeat(), frame, imus) == R.GetFrame(sequenceNumRepeats, old(AsRepeat()))
    {
      frame, imus := None, [];
      var more := CheckEndOfSequence();
      if more {
        frame, imus := PlayAdjusted();
      }
    }

    method PlayAdjusted() returns (frame: Option<int>, imus: seq<int>)
      requires base.Valid()
      modifies base
      ensures base.Valid() && R.Call(AsRepeat(), frame, imus) == R.PlayFrom(old(AsRepeat()))
    {
      var time, raw := base.GetFrame();
      ghost var played := Played(base.AsBase(), time, raw);
      frame := None;
      imus := AdjustAll(raw);
      if time.Some? {
        frame := Some(AdjustTimestamp(time.value));
      }
    }

    method AdjustAll(times: seq<int>) returns (adjusted: seq<int>)
      requires base.events == [] ==> times == []
      ensures base.events == [] ==> adjusted == []
      ensures base.events != [] ==> adjusted == R.AdjustAll(AsRepeat(), times)
    {
      adjusted := [];
      for i := 0 to |times|
        invariant |adjusted| == i
        invariant forall k :: 0 <= k < i ==> adjusted[k] == R.AdjustTimestamp(AsRepeat(), times[k])
      {
        adjusted := adjusted + [AdjustTimestamp(times[i])];
      }
    }

    /** getFrame, counted: call by call the object returns, and its IMU callback receives, what the run
        says. */
    method GetFrame() returns (frame: Option<int>, imus: seq<int>)
      requires Valid()
      modifies this, base
      ensures Valid() && log == old(log) && calls == old(calls) + 1
      ensures frame == R.CallNumber(sequenceNumRepeats, log, old(calls)).frame
      ensures imus == R.CallNumber(sequenceNumRepeats, log, old(calls)).imus
    {
      frame, imus := NextFrame();
      R.StreamNext(sequenceNumRepeats, log, calls);
      calls := calls + 1;
    }

    function AdjustTimestamp(timestamp: int): int
      requires base.events != []
      reads this, base
      ensures AdjustTimestamp(timestamp) == R.AdjustTimestamp(AsRepeat(), timestamp)
    {
      var duration := base.GetLastTimestamp() - base.GetFirstTimestamp();
      MultipleIsProduct(currentSequenceRepeats, duration + FRAME_DELTA);
      timestamp + currentSequenceRepeats * (duration + FRAME_DELTA)
    }
  }
}
