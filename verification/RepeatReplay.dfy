/** Replaying a log several times in a row (libs/camera_rig_edex/repeated_camera_rig_edex.cpp), call by
    call, with the IMU callback registered. */
module RepeatReplay {
  import opened Wrappers
  import opened Replay

  datatype Repeat = Repeat(base: Base, repeats: nat)

  datatype Call = Call(state: Repeat, frame: Option<int>, imus: seq<int>)

  function Start(log: seq<Event>): Repeat {
    Repeat(Base(log, true, 0, 0), 0)
  }

  /** check_end_of_sequence: at the end rewind to the first frame and count one repeat. */
  function RewindAtEnd(s: Repeat): Repeat {
    if Finished(s.base) then
      Repeat(match SeekFrame(s.base, 0) case Some(b) => b case None => s.base, s.repeats + 1)
    else s
  }

  function Shift(repeats: nat, duration: int): int {
    Multiple(repeats, duration + FRAME_DELTA)
  }

  function AdjustTimestamp(s: Repeat, timestamp: int): int
    requires s.base.log != []
  {
    timestamp + Shift(s.repeats, LastTime(s.base) - FirstTime(s.base))
  }

  function AdjustAll(s: Repeat, times: seq<int>): seq<int>
    requires s.base.log != []
  {
    seq(|times|, i requires 0 <= i < |times| => AdjustTimestamp(s, times[i]))
  }

  /** The base plays on, and its callbacks and its frame are adjusted. */
  function PlayFrom(t: Repeat): Call {
    var played := PlayNext(t.base);
    var u := Repeat(played.base, t.repeats);
    if Finished(t.base) then Call(u, None, [])
    else
      var imus := AdjustAll(t, played.imus);
      if played.frame == None then Call(u, None, imus)
      else Call(u, Some(AdjustTimestamp(u, played.frame.value)), imus)
  }

  /** getFrame: no frame means E_Bounds. The IMU callback runs while the base plays. */
  function GetFrame(total: nat, s: Repeat): Call {
    var t := RewindAtEnd(s);
    if t.repeats >= total then Call(t, None, []) else PlayFrom(t)
  }

  function After(total: nat, log: seq<Event>, calls: nat): Repeat {
    if calls == 0 then Start(log) else GetFrame(total, After(total, log, calls - 1)).state
  }

  function CallNumber(total: nat, log: seq<Event>, k: nat): Call {
    GetFrame(total, After(total, log, k))
  }

  // ----- the merged stream of callbacks and frames -----

  function ImuEvents(times: seq<int>): seq<Event> {
    seq(|times|, i requires 0 <= i < |times| => Imu(times[i]))
  }

  /** What one call emits: its IMU callbacks, then its frame. */
  function Emitted(call: Call): seq<Event> {
    ImuEvents(call.imus) + if call.frame.Some? then [Frame(call.frame.value)] else []
  }

  function Stream(total: nat, log: seq<Event>, k: nat): seq<Event> {
    if k == 0 then [] else Stream(total, log, k - 1) + Emitted(CallNumber(total, log, k - 1))
  }

  function Shifted(e: Event, d: int): Event {
    match e
    case Frame(t) => Frame(t + d)
    case Imu(t) => Imu(t + d)
  }

  /** The first n events of the log, shifted. */
  function Prefix(log: seq<Event>, n: nat, d: int): (r: seq<Event>)
    requires n <= |log|
    ensures |r| == n
  {
    if n == 0 then [] else Prefix(log, n - 1, d) + [Shifted(log[n - 1], d)]
  }

  lemma {:induction false} PrefixAt(log: seq<Event>, n: nat, d: int, i: nat)
    requires i < n <= |log|
    ensures Prefix(log, n, d)[i] == Shifted(log[i], d)
  {
    if i < n - 1 {
      PrefixAt(log, n - 1, d, i);
    }
  }

  /** The whole log, n times, each time shifted by one span and one delta more. */
  function Passes(log: seq<Event>, n: nat): seq<Event>
    requires log != []
  {
    if n == 0 then [] else Passes(log, n - 1) + Prefix(log, |log|, Shift(n - 1, Span(log)))
  }

  function Period(log: seq<Event>): nat {
    Frames(log) + Trailing(log)
  }

  // ----- where the wrapper stands -----

  /** In pass l with r frames behind, everything emitted so far is l whole passes and a part of the next. */
  ghost predicate At(log: seq<Event>, t: Repeat, stream: seq<Event>, l: nat, r: nat)
    requires log != []
  {
    && t.base.log == log && t.base.forward && t.repeats == l && t.base.index < |log|
    && FramesBefore(log, true, t.base.index) == r
    && stream == Passes(log, l) + Prefix(log, t.base.index, Shift(l, Span(log)))
  }

  ghost predicate Stands(total: nat, log: seq<Event>, k: nat, l: nat, r: nat)
    requires log != []
  {
    At(log, RewindAtEnd(After(total, log, k)), Stream(total, log, k), l, r)
  }

  lemma {:induction false} ImusAreImu(log: seq<Event>, i: nat)
    requires i <= |log|
    ensures forall k :: i <= k < Skip(log, true, i) ==> log[k].Imu?
    decreases |log| - i
  {
    if i < |log| && !log[i].Frame? {
      ImusAreImu(log, i + 1);
    }
  }

  /** And what it emits is the same stretch of the log, shifted. */
  lemma {:induction false} CallEmits(total: nat, log: seq<Event>, s: Repeat)
    requires Replayable(log)
    requires var t := RewindAtEnd(s);
             t.base.log == log && t.base.forward && t.repeats < total && t.base.index < |log|
    ensures var t, call := RewindAtEnd(s), GetFrame(total, s);
            var i, n, d := t.base.index, call.state.base.index, Shift(t.repeats, Span(log));
            i < n <= |log| && Prefix(log, i, d) + Emitted(call) == Prefix(log, n, d)
  {
    var t, call := RewindAtEnd(s), GetFrame(total, s);
    var i, d := t.base.index, Shift(t.repeats, Span(log));
    var j := Skip(log, true, i);
    SkipPassesNoFrame(log, true, i);
    ImusEmitted(log, t, i, j);
    assert Prefix(log, i, d) + (ImuEvents(call.imus) + Emitted(call)[|call.imus|..]) ==
           (Prefix(log, i, d) + ImuEvents(call.imus)) + Emitted(call)[|call.imus|..];
  }

  lemma {:induction false} ImusEmitted(log: seq<Event>, t: Repeat, i: nat, j: nat)
    requires log != [] && t.base.log == log && t.base.forward && i <= j <= |log| && j <= Skip(log, true, i)
    ensures var d := Shift(t.repeats, Span(log));
            Prefix(log, i, d) + ImuEvents(AdjustAll(t, TimesBetween(log, true, i, j))) == Prefix(log, j, d)
    decreases j
  {
    var d := Shift(t.repeats, Span(log));
    if i < j {
      ImusEmitted(log, t, i, j - 1);
      ImusAreImu(log, i);
      var before, last := TimesBetween(log, true, i, j - 1), log[j - 1].time;
      assert AdjustAll(t, before + [last]) == AdjustAll(t, before) + [last + d];
      assert ImuEvents(AdjustAll(t, before) + [last + d]) == ImuEvents(AdjustAll(t, before)) + [Imu(last + d)];
    }
  }

  lemma {:induction false} StreamNext(total: nat, log: seq<Event>, k: nat)
    ensures After(total, log, k + 1) == CallNumber(total, log, k).state
    ensures Stream(total, log, k + 1) == Stream(total, log, k) + Emitted(CallNumber(total, log, k))
  {
  }

  /** Result of call r of pass l. */
  function Expected(log: seq<Event>, l: nat, r: nat): Option<int>
    requires log != []
  {
    if r < Frames(log) then Some(FrameTimes(log)[r] + Shift(l, Span(log))) else None
  }

  /** One call from a known position, seen from the base rig. */
  lemma {:induction false} CallMoves(total: nat, log: seq<Event>, s: Repeat, stream: seq<Event>, l: nat, r: nat)
    requires Replayable(log) && l < total && r < Period(log) && At(log, RewindAtEnd(s), stream, l, r)
    ensures GetFrame(total, s).frame == Expected(log, l, r)
    ensures var n := GetFrame(total, s).state.base.index;
            && n <= |log| && (n == |log| <==> r + 1 == Period(log))
            && (n < |log| ==> FramesBefore(log, true, n) == r + 1)
  {
    var i := RewindAtEnd(s).base.index;
    SkipReachesNext(log, true, i);
    var j := Skip(log, true, i);
    if j < |log| && r + 1 == Frames(log) {
      EndAfterLastFrame(log, true, j + 1);
    }
  }

  lemma {:induction false} StreamGrows(stream: seq<Event>, emitted: seq<Event>, passes: seq<Event>,
                                       before: seq<Event>, after: seq<Event>)
    requires stream == passes + before && before + emitted == after
    ensures stream + emitted == passes + after
  {
  }

  lemma {:induction false} MovesInPass(total: nat, log: seq<Event>, s: Repeat, stream: seq<Event>, l: nat, r: nat)
    requires Replayable(log) && l < total && r + 1 < Period(log) && At(log, RewindAtEnd(s), stream, l, r)
    ensures var call := GetFrame(total, s); At(log, RewindAtEnd(call.state), stream + Emitted(call), l, r + 1)
  {
    var t, call, d := RewindAtEnd(s), GetFrame(total, s), Shift(l, Span(log));
    CallMoves(total, log, s, stream, l, r);
    CallEmits(total, log, s);
    StreamGrows(stream, Emitted(call), Passes(log, l), Prefix(log, t.base.index, d),
                Prefix(log, call.state.base.index, d));
  }

  lemma {:induction false} MovesToNextPass(total: nat, log: seq<Event>, s: Repeat, stream: seq<Event>, l: nat, r: nat)
    requires Replayable(log) && l < total && r + 1 == Period(log) && At(log, RewindAtEnd(s), stream, l, r)
    ensures var call := GetFrame(total, s); At(log, RewindAtEnd(call.state), stream + Emitted(call), l + 1, 0)
  {
    var t, call, d := RewindAtEnd(s), GetFrame(total, s), Shift(l, Span(log));
    CallMoves(total, log, s, stream, l, r);
    CallEmits(total, log, s);
    StreamGrows(stream, Emitted(call), Passes(log, l), Prefix(log, t.base.index, d), Prefix(log, |log|, d));
    assert Passes(log, l + 1) + Prefix(log, 0, Shift(l + 1, Span(log))) == Passes(log, l + 1);
  }

  lemma {:induction false} StandsNext(total: nat, log: seq<Event>, k: nat, l: nat, r: nat)
    requires Replayable(log) && l < total && r < Period(log) && Stands(total, log, k, l, r)
    ensures CallNumber(total, log, k).frame == Expected(log, l, r)
    ensures if r + 1 < Period(log) then Stands(total, log, k + 1, l, r + 1) else Stands(total, log, k + 1, l + 1, 0)
  {
    var s, stream := After(total, log, k), Stream(total, log, k);
    StreamNext(total, log, k);
    CallMoves(total, log, s, stream, l, r);
    if r + 1 < Period(log) {
      MovesInPass(total, log, s, stream, l, r);
    } else {
      MovesToNextPass(total, log, s, stream, l, r);
    }
  }

  ghost function Standing(total: nat, log: seq<Event>): (nat, nat, nat) -> bool
    requires log != []
  {
    (k: nat, l: nat, r: nat) => Stands(total, log, k, l, r)
  }

  lemma {:induction false} StandingMoves(total: nat, log: seq<Event>, k: nat, l: nat, r: nat)
    requires Replayable(log) && l < total && r < Period(log) && Stands(total, log, k, l, r)
    ensures Moves(Period(log), Standing(total, log), k, l, r)
  {
    StandsNext(total, log, k, l, r);
  }

  lemma {:induction false} StandingKept(total: nat, log: seq<Event>)
    requires Replayable(log)
    ensures Kept(Period(log), total, Standing(total, log))
  {
    forall k: nat, l: nat, r: nat | Standing(total, log)(k, l, r) && l < total && r < Period(log)
      ensures Moves(Period(log), Standing(total, log), k, l, r)
    {
      StandingMoves(total, log, k, l, r);
    }
  }

  /** Where the wrapper stands before call r of pass l, and what has been emitted by then. */
  lemma {:induction false} StateAt(total: nat, log: seq<Event>, l: nat, r: nat)
    requires Replayable(log) && ((l < total && r < Period(log)) || (l == total && r == 0))
    ensures Stands(total, log, Index(Period(log), l, r), l, r)
  {
    SomeFrame(log);
    StandingKept(total, log);
    WalkEverywhere(Period(log), total, Standing(total, log), l, r);
  }

  /** Every call of every pass returns the frame the closed form says. */
  lemma {:induction false} RepeatReturns(total: nat, log: seq<Event>, l: nat, r: nat)
    requires Replayable(log) && l < total && r < Period(log)
    ensures CallNumber(total, log, Index(Period(log), l, r)).frame == Expected(log, l, r)
  {
    StateAt(total, log, l, r);
    StandsNext(total, log, Index(Period(log), l, r), l, r);
  }

  /** Call r of pass l, in terms of the log: its frames, later by l times its span and one frame delta. */
  ghost predicate IsCallOf(frame: Option<int>, log: seq<Event>, l: nat, r: nat)
    requires log != []
  {
    var shift := l * (log[|log| - 1].time - log[0].time + 33_333_333);
    frame == if r < Frames(log) then Some(FrameTimes(log)[r] + shift) else None
  }

  lemma {:induction false} ExpectedIs(log: seq<Event>, l: nat, r: nat)
    requires log != []
    ensures IsCallOf(Expected(log, l, r), log, l, r)
  {
    MultipleIsProduct(l, Span(log) + FRAME_DELTA);
  }

  lemma {:induction false} CallReturns(total: nat, log: seq<Event>, l: nat, r: nat, k: nat)
    requires Replayable(log) && l < total && r < Period(log) && k == l * Period(log) + r
    ensures IsCallOf(CallNumber(total, log, k).frame, log, l, r)
  {
    IndexIsProduct(Period(log), l, r);
    RepeatReturns(total, log, l, r);
    ExpectedIs(log, l, r);
  }

  /** An end is reported within a pass exactly when IMU events trail the last frame, and then once in
      every pass, by its last call. */
  lemma {:induction false} EarlyEndIff(total: nat, log: seq<Event>, l: nat)
    requires Replayable(log) && l < total
    ensures Trailing(log) == 1 <==>
            exists r: nat :: r < Period(log) && CallNumber(total, log, Index(Period(log), l, r)).frame == None
    ensures forall r: nat :: r < Period(log) ==>
              (CallNumber(total, log, Index(Period(log), l, r)).frame == None <==> r == Frames(log))
  {
    forall r: nat | r < Period(log)
      ensures CallNumber(total, log, Index(Period(log), l, r)).frame == None <==> r == Frames(log)
    {
      RepeatReturns(total, log, l, r);
    }
    if Trailing(log) == 1 {
      assert CallNumber(total, log, Index(Period(log), l, Frames(log))).frame == None;
    }
  }

  /** All passes done: every further call reports the end and emits nothing. */
  ghost predicate Done(total: nat, s: Repeat) {
    RewindAtEnd(s).repeats >= total && !Finished(RewindAtEnd(s).base)
  }

  /** Before call k all passes are done and this is what has been emitted. */
  ghost predicate Over(total: nat, log: seq<Event>, k: nat, stream: seq<Event>) {
    Done(total, After(total, log, k)) && Stream(total, log, k) == stream
  }

  lemma {:induction false} DoneStays(total: nat, s: Repeat)
    requires Done(total, s)
    ensures var call := GetFrame(total, s); call.frame == None && Emitted(call) == [] && Done(total, call.state)
  {
  }

  ghost function BeingOver(total: nat, log: seq<Event>, stream: seq<Event>): nat -> bool {
    (k: nat) => Over(total, log, k, stream)
  }

  lemma {:induction false} OverLasts(total: nat, log: seq<Event>, stream: seq<Event>)
    ensures Lasting(BeingOver(total, log, stream))
  {
    forall k: nat | BeingOver(total, log, stream)(k) ensures Follows(BeingOver(total, log, stream), k) {
    }
  }

  lemma {:induction false} AllPassesDone(total: nat, log: seq<Event>, k: nat)
    requires Replayable(log) && Stands(total, log, k, total, 0)
    ensures Over(total, log, k, Passes(log, total))
  {
    var t := RewindAtEnd(After(total, log, k));
    if t.base.index > 0 {
      FramesBeforeMonotone(log, true, 1, t.base.index);
    }
    assert Prefix(log, 0, Shift(total, Span(log))) == [];
  }

  /** How many calls the passes take together. */
  function AllCalls(total: nat, log: seq<Event>): (n: nat)
    ensures n == total * Period(log)
  {
    IndexIsProduct(Period(log), total, 0);
    Index(Period(log), total, 0)
  }

  lemma {:induction false} RunEnds(total: nat, log: seq<Event>)
    requires Replayable(log)
    ensures Over(total, log, AllCalls(total, log), Passes(log, total))
  {
    StateAt(total, log, total, 0);
    AllPassesDone(total, log, Index(Period(log), total, 0));
  }

  lemma {:induction false} OverForever(total: nat, log: seq<Event>, n: nat, k: nat, stream: seq<Event>)
    requires Over(total, log, n, stream)
    ensures Over(total, log, n + k, stream)
  {
    OverLasts(total, log, stream);
    LastsForever(BeingOver(total, log, stream), n, k);
  }

  /** Event p of pass l in the stream: that of the log, of the same kind, later by l times the span and one frame
      delta. */
  ghost predicate RepeatsEvent(stream: seq<Event>, log: seq<Event>, l: nat, p: nat)
    requires p < |log|
  {
    var i := l * |log| + p;
    && 0 <= i < |stream|
    && stream[i].Frame? == log[p].Frame?
    && stream[i].time == log[p].time + l * (log[|log| - 1].time - log[0].time + 33_333_333)
  }

  /** The log so many times over, each event of each pass once and in order. */
  ghost predicate IsRepeated(stream: seq<Event>, log: seq<Event>, total: nat) {
    && |stream| == total * |log|
    && forall l: nat, p: nat :: l < total && p < |log| ==> RepeatsEvent(stream, log, l, p)
  }

  lemma {:induction false} RepeatsLonger(stream: seq<Event>, more: seq<Event>, log: seq<Event>, l: nat, p: nat)
    requires p < |log| && RepeatsEvent(stream, log, l, p)
    ensures RepeatsEvent(stream + more, log, l, p)
  {
  }

  lemma {:induction false} RepeatsLast(before: seq<Event>, log: seq<Event>, l: nat, p: nat)
    requires p < |log| && |before| == l * |log|
    ensures RepeatsEvent(before + Prefix(log, |log|, Shift(l, Span(log))), log, l, p)
  {
    PrefixAt(log, |log|, Shift(l, Span(log)), p);
    MultipleIsProduct(l, Span(log) + FRAME_DELTA);
  }

  lemma {:induction false} PassesAreRepeated(log: seq<Event>, n: nat)
    requires log != []
    ensures IsRepeated(Passes(log, n), log, n)
  {
    if n > 0 {
      PassesAreRepeated(log, n - 1);
      var before, last := Passes(log, n - 1), Prefix(log, |log|, Shift(n - 1, Span(log)));
      assert (n - 1) * |log| + |log| == n * |log|;
      forall l: nat, p: nat | l < n && p < |log| ensures RepeatsEvent(before + last, log, l, p) {
        if l < n - 1 {
          RepeatsLonger(before, last, log, l, p);
        } else {
          RepeatsLast(before, log, n - 1, p);
        }
      }
    }
  }

  /** The whole run: after all passes the merged stream of callbacks and frames is the log, total times
      over, each event exactly once per pass and in order; every further call reports the end. */
  lemma {:induction false} WholeRun(total: nat, log: seq<Event>, k: nat)
    requires Replayable(log)
    ensures var n := AllCalls(total, log) + k;
            && CallNumber(total, log, n).frame == None && Stream(total, log, n) == Passes(log, total)
            && IsRepeated(Stream(total, log, n), log, total)
  {
    PassesAreRepeated(log, total);
    RunEnds(total, log);
    OverForever(total, log, AllCalls(total, log), k, Passes(log, total));
    DoneStays(total, After(total, log, AllCalls(total, log) + k));
  }

  ghost predicate HoldsNothing(s: Repeat) {
    s.base.log == [] && s.base.forward
  }

  lemma {:induction false} NothingToPlay(total: nat, s: Repeat)
    requires HoldsNothing(s)
    ensures var call := GetFrame(total, s); HoldsNothing(call.state) && call.frame == None && call.imus == []
  {
    assert SeekFrame(s.base, 0) == None;
  }

  lemma {:induction false} NothingHeld(total: nat, k: nat)
    ensures HoldsNothing(After(total, [], k))
  {
    if k > 0 {
      NothingHeld(total, k - 1);
      NothingToPlay(total, After(total, [], k - 1));
    }
  }

  ghost predicate Silent(call: Call) {
    call.frame == None && Emitted(call) == []
  }

  lemma {:induction false} NothingEmitted(total: nat, k: nat)
    ensures Silent(CallNumber(total, [], k))
  {
    NothingHeld(total, k);
    NothingToPlay(total, After(total, [], k));
  }

  /** A log without frames is over at once: nothing is ever returned or called back. */
  lemma {:induction false} EmptyLogReturnsNothing(total: nat, k: nat)
    ensures Silent(CallNumber(total, [], k)) && Stream(total, [], k) == []
  {
    NothingEmitted(total, k);
    if k > 0 {
      NothingStreamed(total, k - 1);
    }
  }

  lemma {:induction false} NothingStreamed(total: nat, k: nat)
    ensures Stream(total, [], k + 1) == []
  {
    if k > 0 {
      NothingStreamed(total, k - 1);
    }
    NothingEmitted(total, k);
    StreamNext(total, [], k);
  }

  // ----- order over the whole run -----

  ghost predicate WithinPass(log: seq<Event>, e: Event, l: nat)
    requires log != []
  {
    log[0].time + Shift(l, Span(log)) <= e.time <= log[|log| - 1].time + Shift(l, Span(log))
  }

  /** Each event of the repeated log belongs to a pass, and passes do not overlap in time. */
  lemma {:induction false} PassOf(log: seq<Event>, n: nat, i: nat) returns (l: nat, p: nat)
    requires StartedLog(log) && log != [] && i < |Passes(log, n)|
    ensures l < n && p < |log| && Passes(log, n)[i] == Shifted(log[p], Shift(l, Span(log)))
    ensures i == |Passes(log, l)| + p
    ensures WithinPass(log, Passes(log, n)[i], l)
  {
    if i < |Passes(log, n - 1)| {
      l, p := PassOf(log, n - 1, i);
    } else {
      l, p := n - 1, i - |Passes(log, n - 1)|;
      PrefixAt(log, |log|, Shift(l, Span(log)), p);
      if 0 < p {
        assert log[0].time <= log[p].time;
      }
      if p < |log| - 1 {
        assert log[p].time <= log[|log| - 1].time;
      }
    }
  }

  lemma {:induction false} PassesLength(log: seq<Event>, n: nat, m: nat)
    requires log != [] && n <= m
    ensures |Passes(log, n)| <= |Passes(log, m)|
    ensures n < m ==> |Passes(log, n)| + |log| <= |Passes(log, m)|
  {
    if n < m {
      PassesLength(log, n, m - 1);
    }
  }

  /** The merged stream is in time order over the whole run, and strictly so between different passes. */
  lemma {:induction false} StreamOrdered(log: seq<Event>, n: nat, i: nat, j: nat)
    requires StartedLog(log) && log != [] && i < j < |Passes(log, n)|
    ensures Passes(log, n)[i].time <= Passes(log, n)[j].time
    ensures Increasing(FrameTimes(log)) && Passes(log, n)[i].Frame? && Passes(log, n)[j].Frame? ==>
              Passes(log, n)[i].time < Passes(log, n)[j].time
  {
    var l, p := PassOf(log, n, i);
    var l', p' := PassOf(log, n, j);
    if l == l' {
      assert p < p' && log[p].time <= log[p'].time;
      if log[p].Frame? && log[p'].Frame? && Increasing(FrameTimes(log)) {
        FrameRank(log, p);
        FrameRank(log, p');
        FramesBeforeMonotone(log, true, p + 1, p');
      }
    } else {
      if l < l' {
        MultipleGrows(l, l', Span(log) + FRAME_DELTA);
      } else {
        PassesLength(log, l', l);
      }
    }
  }

  ghost predicate Increasing(ts: seq<int>) {
    forall k, l :: 0 <= k < l < |ts| ==> ts[k] < ts[l]
  }

  /** A frame's time is listed at its rank. */
  lemma {:induction false} FrameRank(log: seq<Event>, p: nat)
    requires p < |log| && log[p].Frame?
    ensures FramesBefore(log, true, p) < Frames(log) && FrameTimes(log)[FramesBefore(log, true, p)] == log[p].time
    ensures FramesBefore(log, true, p + 1) == FramesBefore(log, true, p) + 1
  {
    WindowSplit(log, true, 0, p + 1, |log|);
  }

  // ----- how many frames -----

  function CountFrames(events: seq<Event>, n: nat): nat
    requires n <= |events|
  {
    if n == 0 then 0 else CountFrames(events, n - 1) + if events[n - 1].Frame? then 1 else 0
  }

  lemma {:induction false} CountConcat(a: seq<Event>, b: seq<Event>, n: nat)
    requires n <= |b|
    ensures CountFrames(a + b, |a| + n) == CountFrames(a, |a|) + CountFrames(b, n)
  {
    if n > 0 {
      CountConcat(a, b, n - 1);
    } else {
      CountSame(a, a + b, |a|);
    }
  }

  lemma {:induction false} CountSame(a: seq<Event>, b: seq<Event>, n: nat)
    requires n <= |a| && n <= |b| && forall i :: 0 <= i < n ==> a[i].Frame? == b[i].Frame?
    ensures CountFrames(a, n) == CountFrames(b, n)
  {
    if n > 0 {
      CountSame(a, b, n - 1);
    }
  }

  lemma {:induction false} CountIsFramesBefore(log: seq<Event>, n: nat)
    requires n <= |log|
    ensures CountFrames(log, n) == FramesBefore(log, true, n)
  {
    if n > 0 {
      CountIsFramesBefore(log, n - 1);
    }
  }

  /** n passes hold exactly n times the frames of the log. */
  lemma {:induction false} PassesFrames(log: seq<Event>, n: nat)
    requires log != []
    ensures CountFrames(Passes(log, n), |Passes(log, n)|) == n * Frames(log)
  {
    if n > 0 {
      PassesFrames(log, n - 1);
      var pass := Prefix(log, |log|, Shift(n - 1, Span(log)));
      CountConcat(Passes(log, n - 1), pass, |log|);
      forall i | 0 <= i < |log| ensures pass[i].Frame? == log[i].Frame? {
        PrefixAt(log, |log|, Shift(n - 1, Span(log)), i);
      }
      CountSame(pass, log, |log|);
      CountIsFramesBefore(log, |log|);
      assert n * Frames(log) == (n - 1) * Frames(log) + Frames(log);
    }
  }
}
