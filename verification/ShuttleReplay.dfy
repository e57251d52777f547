/** Back-and-forth replay (libs/camera_rig_edex/shuttle_camera_rig_edex.cpp), call by call. */
module ShuttleReplay {
  import opened Wrappers
  import opened Replay

  datatype Shuttle = Shuttle(base: Base, loop: nat)

  datatype Call = Call(state: Shuttle, frame: Option<int>)

  function Start(log: seq<Event>): Shuttle {
    Shuttle(Base(log, true, 0, 0), 0)
  }

  function Abs(x: int): int {
    if x < 0 then -x else x
  }

  function Max(x: int, y: int): int {
    if x < y then y else x
  }

  /** check_end_of_sequence: at the end of a pass turn around; a finished backward pass ends a loop. */
  function TurnAtEnd(s: Shuttle): Shuttle
    requires s.base.index <= |s.base.log|
  {
    if Finished(s.base) then
      Shuttle(Turn(s.base, !s.base.forward), if s.base.forward then s.loop else s.loop + 1)
    else s
  }

  /** Two passes per loop done, each one frame longer than the log. */
  function Shift(loop: nat, duration: int): int {
    Multiple(loop, 2 * (duration + FRAME_DELTA))
  }

  function AdjustTimestamp(s: Shuttle, timestamp: int): int
    requires s.base.log != []
  {
    var duration := Abs(LastTime(s.base) - FirstTime(s.base));
    var maxTime := Max(LastTime(s.base), FirstTime(s.base));
    (if s.base.forward then timestamp else 2 * maxTime + FRAME_DELTA - timestamp)
      + Shift(s.loop, duration)
  }

  /** getFrame: no frame means E_Bounds. */
  function GetFrame(loops: nat, s: Shuttle): (call: Call)
    requires s.base.index <= |s.base.log|
    ensures call.state.base.index <= |call.state.base.log|
  {
    var t := TurnAtEnd(s);
    if t.loop >= loops then Call(t, None)
    else
      var played := PlayNext(t.base);
      var u := Shuttle(played.base, t.loop);
      if played.frame == None then Call(u, None)
      else Call(u, Some(AdjustTimestamp(u, played.frame.value)))
  }

  function After(loops: nat, log: seq<Event>, calls: nat): (s: Shuttle)
    ensures s.base.index <= |s.base.log|
  {
    if calls == 0 then Start(log) else GetFrame(loops, After(loops, log, calls - 1)).state
  }

  /** What call number k (from 0) returns. */
  function Result(loops: nat, log: seq<Event>, k: nat): Option<int> {
    GetFrame(loops, After(loops, log, k)).frame
  }

  // ----- the closed form -----

  /** Calls per loop: both passes, plus one that reports the end when IMU events trail the last frame. */
  function Period(log: seq<Event>): nat {
    2 * Frames(log) + Trailing(log)
  }

  /** Result of call r of loop l: the frames forward, then the same frames backward, mirrored behind the
      end of the log and shifted by the loops before. */
  function Expected(log: seq<Event>, l: nat, r: nat): Option<int>
    requires log != [] && r < Period(log)
  {
    var n, shift := Frames(log), Shift(l, Span(log));
    if r < n then Some(FrameTimes(log)[r] + shift)
    else if r < n + Trailing(log) then None
    else Some(2 * log[|log| - 1].time + FRAME_DELTA - FrameTimes(log)[2 * n + Trailing(log) - 1 - r] + shift)
  }

  /** Mid-pass, with any due turn already taken: c frames of the pass are behind, something is ahead. */
  ghost predicate InPass(log: seq<Event>, t: Shuttle, l: nat, forward: bool, c: nat) {
    && t.base.log == log && t.base.forward == forward && t.loop == l
    && t.base.index < |log| && FramesBefore(log, forward, t.base.index) == c
  }

  /** The state for call r of loop l. */
  ghost predicate At(log: seq<Event>, t: Shuttle, l: nat, r: nat) {
    var turn := Frames(log) + Trailing(log);
    if r < turn then InPass(log, t, l, true, r) else InPass(log, t, l, false, r - turn)
  }

  /** The state the wrapper leaves once the base has played, with the next turn taken if it is due. */
  function Next(t: Shuttle): Shuttle
    requires t.base.index <= |t.base.log|
  {
    TurnAtEnd(Shuttle(PlayNext(t.base).base, t.loop))
  }

  lemma {:induction false} SameFrameCount(log: seq<Event>)
    ensures FramesBefore(log, false, |log|) == Frames(log)
    ensures forall q :: 0 <= q < Frames(log) ==>
              Window(log, false, 0, |log|)[q] == FrameTimes(log)[Frames(log) - 1 - q]
  {
    BackwardWindow(log, |log|);
  }

  lemma {:induction false} ForwardFrame(log: seq<Event>, t: Shuttle, l: nat, c: nat)
    requires Replayable(log) && InPass(log, t, l, true, c) && c < Frames(log)
    ensures PlayNext(t.base).frame == Some(FrameTimes(log)[c])
    ensures PlayNext(t.base).base.log == log && PlayNext(t.base).base.forward
    ensures if c + 1 < Frames(log) + Trailing(log) then InPass(log, Next(t), l, true, c + 1)
            else InPass(log, Next(t), l, false, 0)
  {
    SkipReachesNext(log, true, t.base.index);
    var j := Skip(log, true, t.base.index);
    if c + 1 == Frames(log) {
      EndAfterLastFrame(log, true, j + 1);
    }
  }

  lemma {:induction false} ForwardEnd(log: seq<Event>, t: Shuttle, l: nat)
    requires Replayable(log) && InPass(log, t, l, true, Frames(log))
    ensures PlayNext(t.base).frame == None
    ensures InPass(log, Next(t), l, false, 0)
  {
    SkipReachesNext(log, true, t.base.index);
  }

  lemma {:induction false} BackwardFrame(log: seq<Event>, t: Shuttle, l: nat, q: nat)
    requires Replayable(log) && InPass(log, t, l, false, q) && q < Frames(log)
    ensures PlayNext(t.base).frame == Some(FrameTimes(log)[Frames(log) - 1 - q])
    ensures PlayNext(t.base).base.log == log && !PlayNext(t.base).base.forward
    ensures if q + 1 < Frames(log) then InPass(log, Next(t), l, false, q + 1)
            else InPass(log, Next(t), l + 1, true, 0)
  {
    SameFrameCount(log);
    SkipReachesNext(log, false, t.base.index);
    var j := Skip(log, false, t.base.index);
    if q + 1 == Frames(log) {
      EndAfterLastFrame(log, false, j + 1);
    }
  }

  /** The position after call r of loop l. */
  ghost predicate MovesOn(log: seq<Event>, t: Shuttle, l: nat, r: nat) {
    if r + 1 < Period(log) then At(log, t, l, r + 1) else At(log, t, l + 1, 0)
  }

  lemma {:induction false} CallForward(loops: nat, log: seq<Event>, s: Shuttle, l: nat, r: nat)
    requires Replayable(log) && s.base.index <= |s.base.log| && l < loops && r < Frames(log)
    requires At(log, TurnAtEnd(s), l, r)
    ensures GetFrame(loops, s).frame == Expected(log, l, r)
    ensures MovesOn(log, TurnAtEnd(GetFrame(loops, s).state), l, r)
  {
    var t := TurnAtEnd(s);
    ForwardFrame(log, t, l, r);
  }

  lemma {:induction false} CallAtEnd(loops: nat, log: seq<Event>, s: Shuttle, l: nat, r: nat)
    requires Replayable(log) && s.base.index <= |s.base.log| && l < loops && Frames(log) <= r < Frames(log) + Trailing(log)
    requires At(log, TurnAtEnd(s), l, r)
    ensures GetFrame(loops, s).frame == Expected(log, l, r)
    ensures MovesOn(log, TurnAtEnd(GetFrame(loops, s).state), l, r)
  {
    ForwardEnd(log, TurnAtEnd(s), l);
    SomeFrame(log);
  }

  lemma {:induction false} CallBackward(loops: nat, log: seq<Event>, s: Shuttle, l: nat, r: nat)
    requires Replayable(log) && s.base.index <= |s.base.log| && l < loops && Frames(log) + Trailing(log) <= r < Period(log)
    requires At(log, TurnAtEnd(s), l, r)
    ensures GetFrame(loops, s).frame == Expected(log, l, r)
    ensures MovesOn(log, TurnAtEnd(GetFrame(loops, s).state), l, r)
  {
    var t, q := TurnAtEnd(s), r - Frames(log) - Trailing(log);
    BackwardFrame(log, t, l, q);
    SomeFrame(log);
  }

  /** One call from a known position. */
  lemma {:induction false} CallAt(loops: nat, log: seq<Event>, s: Shuttle, l: nat, r: nat)
    requires Replayable(log) && s.base.index <= |s.base.log| && l < loops && r < Period(log)
    requires At(log, TurnAtEnd(s), l, r)
    ensures GetFrame(loops, s).frame == Expected(log, l, r)
    ensures MovesOn(log, TurnAtEnd(GetFrame(loops, s).state), l, r)
  {
    if r < Frames(log) {
      CallForward(loops, log, s, l, r);
    } else if r < Frames(log) + Trailing(log) {
      CallAtEnd(loops, log, s, l, r);
    } else {
      CallBackward(loops, log, s, l, r);
    }
  }

  lemma {:induction false} AfterNext(loops: nat, log: seq<Event>, k: nat)
    ensures After(loops, log, k + 1) == GetFrame(loops, After(loops, log, k)).state
  {
  }

  /** Before call k the wrapper stands at call r of loop l. */
  ghost predicate Stands(loops: nat, log: seq<Event>, k: nat, l: nat, r: nat) {
    At(log, TurnAtEnd(After(loops, log, k)), l, r)
  }

  lemma {:induction false} StandsNext(loops: nat, log: seq<Event>, k: nat, l: nat, r: nat)
    requires Replayable(log) && l < loops && r < Period(log) && Stands(loops, log, k, l, r)
    ensures Result(loops, log, k) == Expected(log, l, r)
    ensures if r + 1 < Period(log) then Stands(loops, log, k + 1, l, r + 1) else Stands(loops, log, k + 1, l + 1, 0)
  {
    CallAt(loops, log, After(loops, log, k), l, r);
    AfterNext(loops, log, k);
  }

  ghost function Standing(loops: nat, log: seq<Event>): (nat, nat, nat) -> bool {
    (k: nat, l: nat, r: nat) => Stands(loops, log, k, l, r)
  }

  lemma {:induction false} StandingMoves(loops: nat, log: seq<Event>, k: nat, l: nat, r: nat)
    requires Replayable(log) && l < loops && r < Period(log) && Stands(loops, log, k, l, r)
    ensures Moves(Period(log), Standing(loops, log), k, l, r)
  {
    StandsNext(loops, log, k, l, r);
  }

  lemma {:induction false} StandingKept(loops: nat, log: seq<Event>)
    requires Replayable(log)
    ensures Kept(Period(log), loops, Standing(loops, log))
  {
    forall k: nat, l: nat, r: nat | Standing(loops, log)(k, l, r) && l < loops && r < Period(log)
      ensures Moves(Period(log), Standing(loops, log), k, l, r)
    {
      StandingMoves(loops, log, k, l, r);
    }
  }

  /** Where the wrapper stands before call r of loop l, for every loop and call. */
  lemma {:induction false} StateAt(loops: nat, log: seq<Event>, l: nat, r: nat)
    requires Replayable(log) && ((l < loops && r < Period(log)) || (l == loops && r == 0))
    ensures Stands(loops, log, Index(Period(log), l, r), l, r)
  {
    SomeFrame(log);
    StandingKept(loops, log);
    WalkEverywhere(Period(log), loops, Standing(loops, log), l, r);
  }

  /** Every call of every loop returns what the closed form says. */
  lemma {:induction false} ShuttleReturns(loops: nat, log: seq<Event>, l: nat, r: nat)
    requires Replayable(log) && l < loops && r < Period(log)
    ensures Result(loops, log, Index(Period(log), l, r)) == Expected(log, l, r)
  {
    StateAt(loops, log, l, r);
    StandsNext(loops, log, Index(Period(log), l, r), l, r);
  }

  /** Call r of loop l, in terms of the log: the frames, then their mirror image behind its end, later by l times
      twice its span and one frame delta. */
  ghost predicate IsCallOf(result: Option<int>, log: seq<Event>, l: nat, r: nat)
    requires log != [] && r < Period(log)
  {
    var n, last := Frames(log), log[|log| - 1].time;
    var shift := l * (2 * (last - log[0].time + 33_333_333));
    if r < n then result == Some(FrameTimes(log)[r] + shift)
    else if r < Period(log) - n then result == None
    else result == Some(last + 33_333_333 + (last - FrameTimes(log)[Period(log) - 1 - r]) + shift)
  }

  lemma {:induction false} ExpectedIs(log: seq<Event>, l: nat, r: nat)
    requires log != [] && r < Period(log)
    ensures IsCallOf(Expected(log, l, r), log, l, r)
  {
    MultipleIsProduct(l, 2 * (Span(log) + FRAME_DELTA));
  }

  lemma {:induction false} CallReturns(loops: nat, log: seq<Event>, l: nat, r: nat, k: nat)
    requires Replayable(log) && l < loops && r < Period(log) && k == l * Period(log) + r
    ensures IsCallOf(Result(loops, log, k), log, l, r)
  {
    IndexIsProduct(Period(log), l, r);
    ShuttleReturns(loops, log, l, r);
    ExpectedIs(log, l, r);
  }

  /** The state once all loops are done: at the start of the log, going forward. */
  ghost predicate Done(loops: nat, log: seq<Event>, s: Shuttle) {
    && s.base.index <= |s.base.log| && TurnAtEnd(s).loop >= loops
    && TurnAtEnd(s).base.index < |TurnAtEnd(s).base.log|
  }

  lemma {:induction false} DoneStays(loops: nat, log: seq<Event>, s: Shuttle)
    requires Done(loops, log, s)
    ensures GetFrame(loops, s).frame == None && Done(loops, log, GetFrame(loops, s).state)
  {
  }

  ghost predicate DoneAt(loops: nat, log: seq<Event>, k: nat) {
    Done(loops, log, After(loops, log, k))
  }

  lemma {:induction false} DoneNext(loops: nat, log: seq<Event>, k: nat)
    requires DoneAt(loops, log, k)
    ensures Result(loops, log, k) == None && DoneAt(loops, log, k + 1)
  {
    DoneStays(loops, log, After(loops, log, k));
    AfterNext(loops, log, k);
  }

  lemma {:induction false} AllLoopsDone(loops: nat, log: seq<Event>, k: nat)
    requires Replayable(log) && Stands(loops, log, k, loops, 0)
    ensures DoneAt(loops, log, k)
  {
    SomeFrame(log);
  }

  lemma {:induction false} DoneForever(loops: nat, log: seq<Event>, n: nat, k: nat)
    requires DoneAt(loops, log, n)
    ensures DoneAt(loops, log, n + k)
  {
    if k > 0 {
      DoneForever(loops, log, n, k - 1);
      DoneNext(loops, log, n + (k - 1));
    }
  }

  /** After the last loop every further call reports the end of the data. */
  lemma {:induction false} ShuttleExhausted(loops: nat, log: seq<Event>, k: nat)
    requires Replayable(log)
    ensures Result(loops, log, Index(Period(log), loops, 0) + k) == None
  {
    var n := Index(Period(log), loops, 0);
    StateAt(loops, log, loops, 0);
    AllLoopsDone(loops, log, n);
    DoneForever(loops, log, n, k);
    DoneNext(loops, log, n + k);
  }

  /** A log without frames is over at once. */
  lemma {:induction false} EmptyLogReturnsNothing(loops: nat, k: nat)
    ensures After(loops, [], k).base.log == [] && Result(loops, [], k) == None
  {
    if k > 0 {
      EmptyLogReturnsNothing(loops, k - 1);
    }
  }

  // ----- timestamps over a whole run -----

  ghost predicate Increasing(ts: seq<int>) {
    forall k, l :: 0 <= k < l < |ts| ==> ts[k] < ts[l]
  }

  ghost predicate Before(l: nat, r: nat, l': nat, r': nat) {
    l < l' || (l == l' && r < r')
  }

  /** Timestamps of one loop stay within two spans and two deltas above the loop's shift. */
  lemma {:induction false} LoopRange(log: seq<Event>, l: nat, r: nat)
    requires StartedLog(log) && log != [] && r < Period(log) && Expected(log, l, r).Some?
    ensures var t, base := Expected(log, l, r).value, log[0].time + Shift(l, Span(log));
            base <= t <= base + 2 * Span(log) + FRAME_DELTA
  {
    var n := Frames(log);
    if r < n {
      FrameTimesBounded(log, r);
    } else {
      FrameTimesBounded(log, 2 * n + Trailing(log) - 1 - r);
    }
  }

  lemma {:induction false} WithinLoop(log: seq<Event>, l: nat, r: nat, r': nat)
    requires StartedLog(log) && log != [] && Increasing(FrameTimes(log)) && r < r' < Period(log)
    requires Expected(log, l, r).Some? && Expected(log, l, r').Some?
    ensures Expected(log, l, r).value < Expected(log, l, r').value
  {
    var n, e := Frames(log), Trailing(log);
    if r < n <= r' {
      FrameTimesBounded(log, r);
      FrameTimesBounded(log, 2 * n + e - 1 - r');
    }
  }

  /** On a log with strictly increasing frame times the delivered timestamps strictly increase over the
      whole run: within passes, across every turn and from loop to loop. */
  lemma {:induction false} ShuttleTimestampsIncrease(log: seq<Event>, l: nat, r: nat, l': nat, r': nat)
    requires StartedLog(log) && log != [] && Increasing(FrameTimes(log))
    requires r < Period(log) && r' < Period(log) && Before(l, r, l', r')
    requires Expected(log, l, r).Some? && Expected(log, l', r').Some?
    ensures Expected(log, l, r).value < Expected(log, l', r').value
  {
    if l == l' {
      WithinLoop(log, l, r, r');
    } else {
      LoopRange(log, l, r);
      LoopRange(log, l', r');
      MultipleGrows(l, l', 2 * (Span(log) + FRAME_DELTA));
    }
  }

  ghost predicate RunIncreases(loops: nat, log: seq<Event>)
    requires log != []
  {
    forall l: nat, r: nat, l': nat, r': nat ::
      l < loops && l' < loops && r < Period(log) && r' < Period(log) && Before(l, r, l', r')
      && Expected(log, l, r).Some? && Expected(log, l', r').Some?
      ==> Expected(log, l, r).value < Expected(log, l', r').value
  }

  /** Exactly the logs with strictly increasing frame times replay with strictly increasing timestamps. */
  lemma {:induction false} RunIncreasesIff(loops: nat, log: seq<Event>)
    requires StartedLog(log) && log != [] && loops > 0
    ensures RunIncreases(loops, log) <==> Increasing(FrameTimes(log))
  {
    if Increasing(FrameTimes(log)) {
      forall l: nat, r: nat, l': nat, r': nat |
        l < loops && l' < loops && r < Period(log) && r' < Period(log) && Before(l, r, l', r')
        && Expected(log, l, r).Some? && Expected(log, l', r').Some?
        ensures Expected(log, l, r).value < Expected(log, l', r').value
      {
        ShuttleTimestampsIncrease(log, l, r, l', r');
      }
    }
    if RunIncreases(loops, log) {
      forall k, l | 0 <= k < l < Frames(log) ensures FrameTimes(log)[k] < FrameTimes(log)[l] {
        assert Expected(log, 0, k).value < Expected(log, 0, l).value;
      }
    }
  }

  // ----- how many frames -----

  /** Frames among the first r calls of a loop. */
  function FramesInLoop(log: seq<Event>, r: nat): nat
    requires r <= Period(log)
  {
    if r <= Frames(log) then r else r - Trailing(log)
  }

  /** Number of frames the first k calls deliver. */
  function Delivered(loops: nat, log: seq<Event>, k: nat): nat {
    if k == 0 then 0
    else Delivered(loops, log, k - 1) + if Result(loops, log, k - 1).Some? then 1 else 0
  }

  ghost predicate DeliveredIs(loops: nat, log: seq<Event>, k: nat, l: nat, r: nat) {
    && k == Index(Period(log), l, r) && r <= Period(log)
    && Delivered(loops, log, k) == Multiple(l, 2 * Frames(log)) + FramesInLoop(log, r)
  }

  lemma {:induction false} DeliveredOnce(loops: nat, log: seq<Event>, k: nat, l: nat, r: nat)
    requires Replayable(log) && l < loops && r < Period(log) && k == Index(Period(log), l, r)
    ensures Delivered(loops, log, k + 1) == Delivered(loops, log, k) + FramesInLoop(log, r + 1) - FramesInLoop(log, r)
  {
    ShuttleReturns(loops, log, l, r);
  }

  lemma {:induction false} DeliveredInLoop(loops: nat, log: seq<Event>, k: nat, l: nat, r: nat)
    requires Replayable(log) && l < loops && r + 1 < Period(log) && DeliveredIs(loops, log, k, l, r)
    ensures DeliveredIs(loops, log, k + 1, l, r + 1)
  {
    DeliveredOnce(loops, log, k, l, r);
    IndexNext(Period(log), l, r + 1);
  }

  lemma {:induction false} DeliveredLoop(loops: nat, log: seq<Event>, k: nat, l: nat, r: nat)
    requires Replayable(log) && l < loops && r + 1 == Period(log) && DeliveredIs(loops, log, k, l, r)
    ensures DeliveredIs(loops, log, k + 1, l + 1, 0)
  {
    DeliveredOnce(loops, log, k, l, r);
    IndexNext(Period(log), l + 1, 0);
    FramesInWholeLoop(log);
    assert Multiple(l + 1, 2 * Frames(log)) == Multiple(l, 2 * Frames(log)) + 2 * Frames(log);
  }

  lemma {:induction false} FramesInWholeLoop(log: seq<Event>)
    requires Replayable(log)
    ensures FramesInLoop(log, Period(log)) == 2 * Frames(log) && FramesInLoop(log, 0) == 0
  {
    SomeFrame(log);
  }

  /** Every loop delivers each frame twice: 2 * F frames per loop. */
  lemma {:induction false} DeliveredAt(loops: nat, log: seq<Event>, l: nat, r: nat)
    requires Replayable(log) && ((l < loops && r < Period(log)) || (l == loops && r == 0))
    ensures DeliveredIs(loops, log, Index(Period(log), l, r), l, r)
  {
    var holds := (k: nat, l: nat, r: nat) => DeliveredIs(loops, log, k, l, r);
    forall k: nat, l: nat, r: nat | holds(k, l, r) && l < loops && r < Period(log)
      ensures Moves(Period(log), holds, k, l, r)
    {
      if r + 1 < Period(log) {
        DeliveredInLoop(loops, log, k, l, r);
      } else {
        DeliveredLoop(loops, log, k, l, r);
      }
    }
    SomeFrame(log);
    WalkEverywhere(Period(log), loops, holds, l, r);
  }

  lemma {:induction false} NothingMoreDelivered(loops: nat, log: seq<Event>, n: nat, k: nat)
    requires DoneAt(loops, log, n)
    ensures Delivered(loops, log, n + k) == Delivered(loops, log, n)
  {
    if k > 0 {
      NothingMoreDelivered(loops, log, n, k - 1);
      DoneForever(loops, log, n, k - 1);
      DoneNext(loops, log, n + (k - 1));
    }
  }

  /** The run delivers exactly 2 * F * loops frames, however long it is kept going. */
  lemma {:induction false} ShuttleDeliversExactly(loops: nat, log: seq<Event>, k: nat)
    requires Replayable(log)
    ensures Delivered(loops, log, loops * Period(log) + k) == loops * (2 * Frames(log))
  {
    var n := Index(Period(log), loops, 0);
    DeliveredAt(loops, log, loops, 0);
    StateAt(loops, log, loops, 0);
    AllLoopsDone(loops, log, n);
    NothingMoreDelivered(loops, log, n, k);
    IndexIsProduct(Period(log), loops, 0);
    MultipleIsProduct(loops, 2 * Frames(log));
  }

  /** The end of the data is reported before all frames are delivered exactly when IMU events trail the
      last frame, and then once in every loop, between the last frame forward and the turn. */
  lemma {:induction false} EarlyEndIff(loops: nat, log: seq<Event>)
    requires Replayable(log) && loops > 0
    ensures Trailing(log) == 1 <==>
            exists l: nat, r: nat :: l < loops && r < Period(log) && Result(loops, log, Index(Period(log), l, r)) == None
    ensures forall l: nat, r: nat :: l < loops && r < Period(log) ==>
              (Result(loops, log, Index(Period(log), l, r)) == None <==> Trailing(log) == 1 && r == Frames(log))
  {
    SomeFrame(log);
    forall l: nat, r: nat | l < loops && r < Period(log)
      ensures Result(loops, log, Index(Period(log), l, r)) == None <==> Trailing(log) == 1 && r == Frames(log)
    {
      ShuttleReturns(loops, log, l, r);
    }
    if Trailing(log) == 1 {
      ShuttleReturns(loops, log, 0, Frames(log));
      assert Result(loops, log, Index(Period(log), 0, Frames(log))) == None;
    } else {
      assert forall l: nat, r: nat :: l < loops && r < Period(log) ==>
          Result(loops, log, Index(Period(log), l, r)) != None;
    }
  }
}
