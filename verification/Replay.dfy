/** Replaying a recorded log (libs/camera_rig_edex): the cursor over the event list, its in-place
    reversal, and the two wrappers that replay the log back and forth or again and again with
    timestamps shifted so that they keep growing.

    These are the steps as functions; ReplayRigs has the classes. A frame event is reduced to the
    timestamp of its first camera; loading its images always succeeds. */
module Replay {
  import opened Wrappers

  datatype Event = Frame(time: int) | Imu(time: int)

  /** CameraRigEdex: the log, the replay direction, the position of the next event in that direction, and
      the number of frames played. The class keeps its event list in replay order and reverses it in
      place on a turn; here the list is read from the right end instead (see ReplayRigs). */
  datatype Base = Base(log: seq<Event>, forward: bool, index: nat, played: nat)

  const FRAME_DELTA := 33_333_333  // nanoseconds, the assumed distance of the first frame after a turn

  /** n times x, as repeated addition: the run proofs only need that one more adds x. */
  function Multiple(n: nat, x: int): int {
    if n == 0 then 0 else Multiple(n - 1, x) + x
  }

  lemma {:induction false} MultipleIsProduct(n: nat, x: int)
    ensures Multiple(n, x) == n * x
  {
    if n > 0 {
      MultipleIsProduct(n - 1, x);
    }
  }

  lemma {:induction false} MultipleGrows(m: nat, n: nat, x: int)
    requires m < n && x >= 0
    ensures Multiple(m, x) + x <= Multiple(n, x)
  {
    if m + 1 < n {
      MultipleGrows(m, n - 1, x);
    }
  }

  // ----- runs made of equal passes -----

  /** Number of call r of pass l, with p calls per pass. */
  function Index(p: nat, l: nat, r: nat): nat {
    if l == 0 then r else p + Index(p, l - 1, r)
  }

  lemma {:induction false} IndexIsProduct(p: nat, l: nat, r: nat)
    ensures Index(p, l, r) == l * p + r
  {
    if l > 0 {
      IndexIsProduct(p, l - 1, r);
    }
  }

  lemma {:induction false} IndexNext(p: nat, l: nat, r: nat)
    ensures r > 0 ==> Index(p, l, r) == Index(p, l, r - 1) + 1
    ensures r == 0 && l > 0 && p > 0 ==> Index(p, l, 0) == Index(p, l - 1, p - 1) + 1
  {
    if l > 1 {
      IndexNext(p, l - 1, r);
    }
  }

  ghost predicate Moves(p: nat, holds: (nat, nat, nat) -> bool, k: nat, l: nat, r: nat) {
    if r + 1 < p then holds(k + 1, l, r + 1) else holds(k + 1, l + 1, 0)
  }

  ghost predicate Kept(p: nat, passes: nat, holds: (nat, nat, nat) -> bool) {
    forall k: nat, l: nat, r: nat {:trigger Moves(p, holds, k, l, r)} ::
      holds(k, l, r) && l < passes && r < p ==> Moves(p, holds, k, l, r)
  }

  /** Induction over a run: a statement about (number of calls, pass, call) that holds at the start and
      is kept by every call holds everywhere. */
  lemma {:induction false} WalkEverywhere(p: nat, passes: nat, holds: (nat, nat, nat) -> bool, l: nat, r: nat)
    requires p > 0 && holds(0, 0, 0)
    requires Kept(p, passes, holds)
    requires (l < passes && r < p) || (l == passes && r == 0)
    ensures holds(Index(p, l, r), l, r)
    decreases l, r
  {
    IndexNext(p, l, r);
    if r > 0 {
      WalkEverywhere(p, passes, holds, l, r - 1);
      assert Moves(p, holds, Index(p, l, r - 1), l, r - 1);
    } else if l > 0 {
      WalkEverywhere(p, passes, holds, l - 1, p - 1);
      assert Moves(p, holds, Index(p, l - 1, p - 1), l - 1, p - 1);
    }
  }

  ghost predicate Follows(holds: nat -> bool, k: nat) {
    holds(k + 1)
  }

  ghost predicate Lasting(holds: nat -> bool) {
    forall k: nat {:trigger Follows(holds, k)} :: holds(k) ==> Follows(holds, k)
  }

  /** What every further call keeps holds from then on. */
  lemma {:induction false} LastsForever(holds: nat -> bool, n: nat, k: nat)
    requires holds(n) && Lasting(holds)
    ensures holds(n + k)
  {
    if k > 0 {
      LastsForever(holds, n, k - 1);
      assert Follows(holds, n + (k - 1));
    }
  }

  // ----- the log in replay direction -----

  function EventAt(log: seq<Event>, forward: bool, i: nat): Event
    requires i < |log|
  {
    if forward then log[i] else log[|log| - 1 - i]
  }

  /** Times of the frames played at positions i up to j. */
  function Window(log: seq<Event>, forward: bool, i: nat, j: nat): seq<int>
    requires i <= j <= |log|
    decreases j
  {
    if i == j then []
    else
      var e := EventAt(log, forward, j - 1);
      Window(log, forward, i, j - 1) + if e.Frame? then [e.time] else []
  }

  /** The frame times of the whole log, in the order of recording. */
  function FrameTimes(log: seq<Event>): seq<int> {
    Window(log, true, 0, |log|)
  }

  /** Position of the first frame at or after i. */
  function Skip(log: seq<Event>, forward: bool, i: nat): (j: nat)
    requires i <= |log|
    ensures i <= j <= |log|
    decreases |log| - i
  {
    if i == |log| || EventAt(log, forward, i).Frame? then i else Skip(log, forward, i + 1)
  }

  function FramesBefore(log: seq<Event>, forward: bool, i: nat): nat
    requires i <= |log|
  {
    |Window(log, forward, 0, i)|
  }

  lemma {:induction false} WindowSplit(log: seq<Event>, forward: bool, i: nat, k: nat, j: nat)
    requires i <= k <= j <= |log|
    ensures Window(log, forward, i, j) == Window(log, forward, i, k) + Window(log, forward, k, j)
  {
    if k < j {
      WindowSplit(log, forward, i, k, j - 1);
    }
  }

  lemma {:induction false} FramesBeforeMonotone(log: seq<Event>, forward: bool, i: nat, j: nat)
    requires i <= j <= |log|
    ensures FramesBefore(log, forward, i) <= FramesBefore(log, forward, j)
  {
    WindowSplit(log, forward, 0, i, j);
  }

  /** The last j events, read backwards, have the same frames in opposite order. */
  lemma {:induction false} BackwardWindow(log: seq<Event>, j: nat)
    requires j <= |log|
    ensures var back, fore := Window(log, false, 0, j), Window(log, true, |log| - j, |log|);
            |back| == |fore| && forall q :: 0 <= q < |back| ==> back[q] == fore[|fore| - 1 - q]
  {
    if j > 0 {
      BackwardWindow(log, j - 1);
      var k := |log| - j;
      WindowSplit(log, true, k, k + 1, |log|);
      assert Window(log, true, k, k) == [];
    }
  }

  /** Skipping passes over no frame. */
  lemma {:induction false} SkipPassesNoFrame(log: seq<Event>, forward: bool, i: nat)
    requires i <= |log|
    ensures var j := Skip(log, forward, i);
            && Window(log, forward, i, j) == []
            && (j < |log| ==> EventAt(log, forward, j).Frame?)
    decreases |log| - i
  {
    if i < |log| && !EventAt(log, forward, i).Frame? {
      SkipPassesNoFrame(log, forward, i + 1);
      WindowSplit(log, forward, i, i + 1, Skip(log, forward, i));
      assert Window(log, forward, i, i) == [];
    }
  }

  /** Playing from i reaches the frame whose rank is the number of frames already played. */
  lemma {:induction false} SkipReachesNext(log: seq<Event>, forward: bool, i: nat)
    requires i <= |log|
    ensures var j, c, all := Skip(log, forward, i), FramesBefore(log, forward, i), Window(log, forward, 0, |log|);
            && c <= |all| && (j == |log| <==> c == |all|)
            && (j < |log| ==>
                  && EventAt(log, forward, j) == Frame(all[c])
                  && FramesBefore(log, forward, j + 1) == c + 1)
  {
    var j := Skip(log, forward, i);
    SkipPassesNoFrame(log, forward, i);
    WindowSplit(log, forward, 0, i, j);
    if j < |log| {
      WindowSplit(log, forward, 0, j + 1, |log|);
    }
  }

  // ----- the base rig -----

  predicate Finished(b: Base) {
    b.index >= |b.log|
  }

  /** Times of the events played at positions i up to j. */
  function TimesBetween(log: seq<Event>, forward: bool, i: nat, j: nat): seq<int>
    requires i <= j <= |log|
  {
    if i == j then [] else TimesBetween(log, forward, i, j - 1) + [EventAt(log, forward, j - 1).time]
  }

  datatype Played = Played(base: Base, frame: Option<int>, imus: seq<int>)

  /** getFrame: plays IMU events up to the next frame, then that frame; with no frame left it reports the
      end of the data. IMU events reach the callback only when replaying forward. */
  function PlayNext(b: Base): (r: Played)
    ensures r.base.index <= |b.log| || r.base == b
  {
    if Finished(b) then Played(b, None, [])
    else
      var j := Skip(b.log, b.forward, b.index);
      var imus := if b.forward then TimesBetween(b.log, true, b.index, j) else [];
      if j == |b.log| then Played(b.(index := j), None, imus)
      else Played(b.(index := j + 1, played := b.played + 1), Some(EventAt(b.log, b.forward, j).time), imus)
  }

  /** setReplayForward: a turn continues with the event played last. */
  function Turn(b: Base, forward: bool): Base
    requires b.index <= |b.log|
  {
    if forward == b.forward then b else b.(forward := forward, index := |b.log| - b.index)
  }

  /** The event after a turn is the one played just before it. */
  lemma {:induction false} TurnReplaysLastEvent(b: Base)
    requires 0 < b.index <= |b.log|
    ensures var t := Turn(b, !b.forward);
            && t.index < |t.log|
            && EventAt(t.log, t.forward, t.index) == EventAt(b.log, b.forward, b.index - 1)
            && Turn(t, b.forward) == b
  {
  }

  /** setCurrentFrame: the position of the frame with the given rank in replay order, if there is one. */
  function SeekFrame(b: Base, frame: nat): Option<Base> {
    var i := FrameIndex(b.log, b.forward, frame, 0);
    if i == |b.log| then None else Some(b.(index := i))
  }

  function FrameIndex(log: seq<Event>, forward: bool, frame: nat, i: nat): (j: nat)
    requires i <= |log|
    ensures i <= j <= |log|
    decreases |log| - i
  {
    if i == |log| then i
    else if EventAt(log, forward, i).Frame? then
      if frame == 0 then i else FrameIndex(log, forward, frame - 1, i + 1)
    else FrameIndex(log, forward, frame, i + 1)
  }

  /** The positions of the frames among the first j events, in replay order. */
  ghost function FramesAmong(log: seq<Event>, forward: bool, j: int): set<int>
    requires 0 <= j <= |log|
  {
    set k | 0 <= k < j && EventAt(log, forward, k).Frame?
  }

  lemma {:induction false} FramesAmongNext(log: seq<Event>, forward: bool, j: nat)
    requires j < |log|
    ensures |FramesAmong(log, forward, j + 1)| ==
            |FramesAmong(log, forward, j)| + if EventAt(log, forward, j).Frame? then 1 else 0
  {
    var before := FramesAmong(log, forward, j);
    forall k ensures k in FramesAmong(log, forward, j + 1) <==> k in before || (k == j && EventAt(log, forward, j).Frame?) {
    }
    assert FramesAmong(log, forward, j + 1) == before + if EventAt(log, forward, j).Frame? then {j} else {};
  }

  lemma {:induction false} FrameIndexLands(log: seq<Event>, forward: bool, frame: nat, i: nat)
    requires i <= |log|
    ensures var j := FrameIndex(log, forward, frame, i);
            if j == |log| then |FramesAmong(log, forward, j)| <= |FramesAmong(log, forward, i)| + frame
            else
              EventAt(log, forward, j).Frame? && |FramesAmong(log, forward, j)| == |FramesAmong(log, forward, i)| + frame
    decreases |log| - i
  {
    if i < |log| {
      FramesAmongNext(log, forward, i);
      if !EventAt(log, forward, i).Frame? {
        FrameIndexLands(log, forward, frame, i + 1);
      } else if frame > 0 {
        FrameIndexLands(log, forward, frame - 1, i + 1);
      }
    }
  }

  /** Seeking the frame of rank n lands on the frame that has n frames before it; there is none exactly when the
      log has no more than n frames. */
  lemma {:induction false} SeekLands(b: Base, n: nat)
    ensures match SeekFrame(b, n)
            case None => |FramesAmong(b.log, b.forward, |b.log|)| <= n
            case Some(c) =>
              && c == b.(index := c.index) && c.index < |b.log|
              && EventAt(b.log, b.forward, c.index).Frame? && |FramesAmong(b.log, b.forward, c.index)| == n
              && |FramesAmong(b.log, b.forward, |b.log|)| > n
  {
    assert FramesAmong(b.log, b.forward, 0) == {};
    FrameIndexLands(b.log, b.forward, n, 0);
    if SeekFrame(b, n).Some? {
      var j := SeekFrame(b, n).value.index;
      FramesAmongNext(b.log, b.forward, j);
      FramesAmongGrow(b.log, b.forward, j + 1, |b.log|);
    }
  }

  lemma {:induction false} FramesAmongGrow(log: seq<Event>, forward: bool, i: nat, j: nat)
    requires i <= j <= |log|
    ensures |FramesAmong(log, forward, i)| <= |FramesAmong(log, forward, j)|
  {
    if i < j {
      FramesAmongGrow(log, forward, i, j - 1);
      FramesAmongNext(log, forward, j - 1);
    }
  }

  function FirstTime(b: Base): int
    requires b.log != []
  {
    EventAt(b.log, b.forward, 0).time
  }

  function LastTime(b: Base): int
    requires b.log != []
  {
    EventAt(b.log, b.forward, |b.log| - 1).time
  }

  // ----- the log a started rig holds -----

  ghost predicate TimeOrdered(log: seq<Event>) {
    forall i, j :: 0 <= i < j < |log| ==> log[i].time <= log[j].time
  }

  /** start() sorts the events and drops those before the first frame. */
  ghost predicate StartedLog(log: seq<Event>) {
    TimeOrdered(log) && (log != [] ==> log[0].Frame?)
  }

  /** What the wrappers need of a log that is not empty; every started log has it. */
  ghost predicate Replayable(log: seq<Event>) {
    log != [] && log[0].Frame? && log[0].time <= log[|log| - 1].time
  }

  lemma {:induction false} StartedIsReplayable(log: seq<Event>)
    requires StartedLog(log) && log != []
    ensures Replayable(log)
  {
    if |log| > 1 {
      assert log[0].time <= log[|log| - 1].time;
    }
  }

  function Frames(log: seq<Event>): nat {
    |FrameTimes(log)|
  }

  /** One more call per pass when IMU events follow the last frame: it plays them and reports the end. */
  function Trailing(log: seq<Event>): nat {
    if log != [] && log[|log| - 1].Imu? then 1 else 0
  }

  function Span(log: seq<Event>): int
    requires log != []
  {
    log[|log| - 1].time - log[0].time
  }

  lemma {:induction false} SomeFrame(log: seq<Event>)
    requires Replayable(log)
    ensures Frames(log) >= 1
  {
    FramesBeforeMonotone(log, true, 1, |log|);
  }

  /** The position after the last frame is the end of the list exactly if the list ends with a frame. */
  lemma {:induction false} EndAfterLastFrame(log: seq<Event>, forward: bool, i: nat)
    requires 0 < i <= |log| && EventAt(log, forward, i - 1).Frame?
    requires FramesBefore(log, forward, i) == FramesBefore(log, forward, |log|)
    ensures i == |log| <==> EventAt(log, forward, |log| - 1).Frame?
  {
    if i < |log| {
      FramesBeforeMonotone(log, forward, i, |log| - 1);
    }
  }

  /** The frame with rank k sits somewhere in the log. */
  lemma {:induction false} FramePosition(log: seq<Event>, n: nat, k: nat) returns (p: nat)
    requires n <= |log| && k < FramesBefore(log, true, n)
    ensures p < n && log[p] == Frame(Window(log, true, 0, n)[k]) && FramesBefore(log, true, p) == k
  {
    if k < FramesBefore(log, true, n - 1) {
      p := FramePosition(log, n - 1, k);
    } else {
      p := n - 1;
    }
  }

  lemma {:induction false} FrameTimesBounded(log: seq<Event>, k: nat)
    requires TimeOrdered(log) && k < Frames(log)
    ensures log[0].time <= FrameTimes(log)[k] <= log[|log| - 1].time
  {
    var p := FramePosition(log, |log|, k);
    if 0 < p {
      assert log[0].time <= log[p].time;
    }
    if p < |log| - 1 {
      assert log[p].time <= log[|log| - 1].time;
    }
  }
}
