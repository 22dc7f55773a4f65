/**
  What the clock component guarantees over whole runs of events: a resumed scale is applied only
  after the clocks have been restarted, and between discontinuities the media time follows its
  target at a limited rate, without overshoot and without going backwards. And exactly when an event
  makes it divide by zero or write outside of a filter, with the settings under which none does.
 */
module ClockRuns {
  import opened CInt
  import opened ClockFilter
  import opened ClockStream
  import opened ClockControl
  import opened Mmal

  // ----- runs -----

  /** `r` follows from `c` by the events `es`; a fault ends the run. */
  ghost predicate Runs(c: ClockState, es: seq<Event>, r: ClockState)
    decreases |es|
  {
    if es == [] then c == r
    else && Acceptable(c, es[0]) && TimelyEvent(es[0]) && Fault !in Process(c, es[0]).1
         && Runs(Process(c, es[0]).0, es[1..], r)
  }

  lemma {:induction false} RunKeeps(c: ClockState, es: seq<Event>, r: ClockState)
    requires Inv(c) && Runs(c, es, r)
    ensures Inv(r)
    decreases |es|
  {
    hide Inv, Process, Acceptable;
    if es != [] {
      ProcessKeeps(c, es[0]);
      RunKeeps(Process(c, es[0]).0, es[1..], r);
    }
  }

  // ----- resuming -----

  /** In every state between events that a run can reach, a pending scale implies a discontinuity. */
  lemma PendingImpliesDiscont(c: ClockState, es: seq<Event>, r: ClockState)
    requires ClockControl.Init(c) && Runs(c, es, r)
    ensures r.pendingScale ==> r.discont
  {
    RunKeeps(c, es, r);
  }

  /** A resume event applies nothing yet: it forgets all samples, so that the next update restarts
      the clocks on what arrives after it. */
  lemma ResumeRebases(c: ClockState, scale: Rational)
    requires scale.num != 0 && scale.num == scale.den && !RationalEqual(c.scale, scale)
    ensures
      var (r, cmds) := Process(c, ScaleEvent(scale));
      && cmds == [] && r.pendingScale && r.discont && r.scale == scale
      && |r.streams| == |c.streams| && forall i :: 0 <= i < |r.streams| ==> !HasSamples(r.streams[i])
  {
  }

  /** A pause is applied at once and cancels a pending resume. */
  lemma PauseCancelsResume(c: ClockState, scale: Rational)
    requires scale.num == 0
    ensures
      var (r, cmds) := Process(c, ScaleEvent(scale));
      !r.pendingScale && cmds == [SetScale(scale)] && r.scale == scale
  {
  }

  /** The media time a clock shows at its last update. */
  function MediaTime(c: ClockState): int { c.mtOffClk + c.stcAtUpdate }

  lemma SelectedCommands(c: ClockState, stc: int)
    requires SteadyInv(c)
    ensures
      var (r, cmds) := Selected(c, stc);
      || cmds == []
      || cmds == [Fault]
      || (cmds == [SetMediaTime(MediaTime(r))] && !c.pendingScale)
      || (cmds == [StopClocks, StartClocks(MediaTime(r))] && !c.pendingScale && c.discont)
      || (cmds == [StopClocks, StartClocks(MediaTime(r)), SetScale(c.scale)] && c.pendingScale && c.discont)
    ensures Selected(c, stc).0.scale == c.scale
  {
    hide Modulate, Target, Confidence, Cap, AdjMax, StreamsOk, Select;
  }

  lemma UpdateCommands(c: ClockState, stc: int)
    requires SteadyInv(c)
    ensures
      var (r, cmds) := Adjusted(c, stc);
      || cmds == []
      || cmds == [Fault]
      || (cmds == [SetMediaTime(MediaTime(r))] && !c.pendingScale)
      || (cmds == [StopClocks, StartClocks(MediaTime(r))] && !c.pendingScale && c.discont)
      || (cmds == [StopClocks, StartClocks(MediaTime(r)), SetScale(c.scale)] && c.pendingScale && c.discont)
    ensures Adjusted(c, stc).0.scale == c.scale
  {
    hide StreamInv, RefreshAll, Refreshed, Selected;
    RefreshAllKeeps(c.streams, stc, 6 * c.frameDuration, 2 * c.latency.target);
    var d := c.(streams := RefreshedStreams(c, stc));
    assert SteadyInv(d);
    SelectedCommands(d, stc);
    hide StreamsOk;
  }

  /** The last scale that the component accepts among some requests: every pause, and every request for
      the speed 1 that differs from the scale accepted before it. */
  function LastAccepted(scale: Rational, es: seq<Event>): Rational
    decreases |es|
  {
    if es == [] then scale
    else
      var accepts := es[0].ScaleEvent?
        && (es[0].scale.num == 0 || (!RationalEqual(scale, es[0].scale) && es[0].scale.num == es[0].scale.den));
      LastAccepted(if accepts then es[0].scale else scale, es[1..])
  }

  /** The scale of the component is the last one it accepted, whatever else the run brought. */
  lemma {:induction false} ScaleIsLastAccepted(c: ClockState, es: seq<Event>, r: ClockState)
    requires Inv(c) && Runs(c, es, r)
    ensures r.scale == LastAccepted(c.scale, es)
    decreases |es|
  {
    if es != [] {
      ProcessKeeps(c, es[0]);
      ProcessScale(c, es[0]);
      hide Inv, Process, Acceptable;
      ScaleIsLastAccepted(Process(c, es[0]).0, es[1..], r);
    }
  }

  lemma ProcessScale(c: ClockState, e: Event)
    requires Inv(c) && Acceptable(c, e) && TimelyEvent(e)
    ensures Process(c, e).0.scale == LastAccepted(c.scale, [e])
  {
    hide Adjusted, StreamInv, Updated;
    assert [e][1..] == [];
    if e.Info? && CanStream(c, e.port) {
      ArrivedKeeps(c, e);
      UpdateCommands(Arrived(c, e), e.stc);
    }
  }

  /** Resume safety: in any run, the only way a scale other than a pause reaches the ports is in an
      update that first stopped the clocks and restarted them on a rebased media time, and the
      scale applied is the last one that was accepted. */
  lemma ResumeIsSafe(c: ClockState, es: seq<Event>, r: ClockState, e: Event, scale: Rational)
    requires ClockControl.Init(c) && Runs(c, es, r) && Acceptable(r, e) && TimelyEvent(e)
    requires SetScale(scale) in Process(r, e).1
    ensures
      || (e == ScaleEvent(scale) && scale.num == 0)
      || (e.Info? && r.pendingScale && r.discont && scale == LastAccepted(c.scale, es)
          && Process(r, e).1 == [StopClocks, StartClocks(MediaTime(Process(r, e).0)), SetScale(scale)])
  {
    RunKeeps(c, es, r);
    ScaleIsLastAccepted(c, es, r);
    if e.Info? {
      InfoCommands(r, e);
    }
  }

  lemma InfoCommands(c: ClockState, e: Event)
    requires Inv(c) && Acceptable(c, e) && TimelyEvent(e) && e.Info?
    ensures
      var (r, cmds) := Process(c, e);
      || cmds == []
      || cmds == [Fault]
      || (cmds == [SetMediaTime(MediaTime(r))] && !c.pendingScale)
      || (cmds == [StopClocks, StartClocks(MediaTime(r))] && !c.pendingScale && c.discont)
      || (cmds == [StopClocks, StartClocks(MediaTime(r)), SetScale(c.scale)] && c.pendingScale && c.discont)
  {
    hide Adjusted, StreamInv, Updated, Rebased;
    if CanStream(c, e.port) {
      ArrivedKeeps(c, e);
      UpdateCommands(Arrived(c, e), e.stc);
    }
  }

  // ----- the faults -----

  /** Time stamp information that completes a frame: it differs from the last of its started stream,
      and neither time has jumped. */
  predicate CompletesFrame(c: ClockState, e: Event) {
    && e.Info? && e.port < |c.streams| && c.streams[e.port].Some? && c.streams[e.port].value.started
    && e.pts != TIME_UNKNOWN && e.pts != c.streams[e.port].value.pts
    && Abs(e.pts - c.streams[e.port].value.pts) <= c.discontThreshold
    && Abs(e.stc - c.streams[e.port].value.stc) <= c.discontThreshold
  }

  /** A frame rate of numerator 0 divides the frame duration (clock.c:781), one of denominator 0 the
      length of a new stream's filters (clock.c:599). */
  predicate RateFaults(c: ClockState, e: Event) {
    || (e.FrameRate? && e.rate.num == 0)
    || (e.Info? && e.port < |c.streams| && c.streams[e.port].None? && c.frameRate.den == 0)
  }

  /** The streams as a completed frame leaves them after the refresh. */
  function Weighed(c: ClockState, e: Event): seq<Option<StreamState>>
    requires CompletesFrame(c, e)
  {
    RefreshedStreams(Arrived(c, e), e.stc)
  }

  /** The faults of a completed frame: there is no cell left for its sample (clock.c:225), a stream with
      samples has a filter of length 0 (clock.c:457), or the running clock is slewed with an attack period
      of 0 (clock.c:521). */
  ghost predicate FrameFaults(c: ClockState, e: Event)
    requires CompletesFrame(c, e)
  {
    || Overruns(c.streams[e.port].value.avg)
    || !NoneStuck(Weighed(c, e))
    || (!c.discont && c.latency.attackPeriod == 0
        && exists i :: 0 <= i < |c.streams| && HasSamples(Weighed(c, e)[i]))
  }

  /** Exactly when the component divides by zero or writes outside of a filter, for every event. */
  lemma FaultIff(c: ClockState, e: Event)
    requires Inv(c) && Acceptable(c, e) && TimelyEvent(e)
    ensures Fault in Process(c, e).1 <==> RateFaults(c, e) || (CompletesFrame(c, e) && FrameFaults(c, e))
  {
    hide StreamInv, Adjusted, Sampled, Rebased, Refreshed, HasSamples, StreamsOk, NoneStuck;
    if e.Info? && CanStream(c, e.port) {
      ArrivedKeeps(c, e);
      if Reported(c, e).FrameComplete? {
        AdjustedCases(Arrived(c, e), e.stc);
      }
    }
  }

  /** Unless the frame duration or the latency target is negative, the sample of a completed frame is
      still there after the refresh. */
  lemma SampleStays(c: ClockState, e: Event)
    requires Inv(c) && CompletesFrame(c, e) && !Overruns(c.streams[e.port].value.avg)
    requires c.frameDuration >= 0 && c.latency.target >= 0
    ensures HasSamples(Weighed(c, e)[e.port])
    ensures Weighed(c, e)[e.port].value.avg.length == c.streams[e.port].value.avg.length
  {
    hide Inserted, Mean, StreamInv;
    var s := c.streams[e.port].value;
    InsertedShape(s.avg, s.pts - s.stc);
    var u := Arrived(c, e).streams[e.port].value;
    assert u.avg.window != [] && u.stc == e.stc;
  }

  /** Then every completed frame of a running clock faults while the attack period is 0 ... */
  lemma CompletedFrameFaults(c: ClockState, e: Event)
    requires Inv(c) && Acceptable(c, e) && TimelyEvent(e) && CompletesFrame(c, e)
    requires !c.discont && c.latency.attackPeriod == 0 && c.frameDuration >= 0 && c.latency.target >= 0
    ensures Fault in Process(c, e).1
  {
    hide Process, Inv, Weighed, HasSamples;
    FaultIff(c, e);
    if !Overruns(c.streams[e.port].value.avg) {
      SampleStays(c, e);
    }
  }

  /** ... and every completed frame of a stream with filters of length 0, whatever the attack period. */
  lemma ZeroLengthFaults(c: ClockState, e: Event)
    requires Inv(c) && Acceptable(c, e) && TimelyEvent(e) && CompletesFrame(c, e)
    requires c.streams[e.port].value.avg.length == 0 && c.frameDuration >= 0 && c.latency.target >= 0
    ensures Fault in Process(c, e).1
  {
    FaultIff(c, e);
    hide Process, Inv;
    if !Overruns(c.streams[e.port].value.avg) {
      SampleStays(c, e);
      assert Stuck(Weighed(c, e)[e.port]);
    }
  }

  // ----- settings that never fault -----

  /** A frame rate whose two seconds of frames fill a filter of 1 to 180 samples. */
  predicate Moderate(rate: Rational) {
    rate.num != 0 && rate.den != 0 && 1 <= FilterLength(rate) <= MAX_FILTER_LENGTH
  }

  /** Every stream was created at such a rate, and so will be the next. */
  ghost predicate Sized(c: ClockState) {
    && Moderate(c.frameRate)
    && forall i :: 0 <= i < |c.streams| && c.streams[i].Some? ==>
         1 <= c.streams[i].value.avg.length <= MAX_FILTER_LENGTH
  }

  predicate ModerateEvent(e: Event) { e.FrameRate? ==> Moderate(e.rate) }

  /** Updates, ageing and resets keep the length of a filter. */
  lemma UpdatedLength(s: StreamState, stc: int, pts: int, threshold: int)
    ensures Updated(s, stc, pts, threshold).0.avg.length == s.avg.length
  {
    hide Wrap, SaturateAdd, Mean;
  }

  lemma RefreshedLength(s: StreamState, stc: int, drop: int, reset: int)
    ensures Refreshed(s, stc, drop, reset).avg.length == s.avg.length
  {
    hide Wrap, Mean;
  }

  lemma RefreshedSized(c: ClockState, stc: int)
    requires Sized(c)
    ensures Sized(c.(streams := RefreshedStreams(c, stc))) && NoneStuck(RefreshedStreams(c, stc))
  {
    hide Refreshed, Moderate;
    forall i | 0 <= i < |c.streams| && c.streams[i].Some?
      ensures 1 <= RefreshedStreams(c, stc)[i].value.avg.length <= MAX_FILTER_LENGTH
    {
      RefreshedLength(c.streams[i].value, stc, 6 * c.frameDuration, 2 * c.latency.target);
    }
  }

  lemma AdjustedSized(c: ClockState, stc: int)
    requires Sized(c)
    ensures Sized(Adjusted(c, stc).0)
  {
    RefreshedSized(c, stc);
    hide RefreshAll, Moderate, Selected;
    SelectedFrame(c.(streams := RefreshedStreams(c, stc)), stc);
  }

  lemma SelectedFrame(c: ClockState, stc: int)
    ensures
      var r := Selected(c, stc).0;
      && r.latency == c.latency && r.frameDuration == c.frameDuration && r.discontThreshold == c.discontThreshold
      && r.frameRate == c.frameRate && r.streams == c.streams
  {
    hide Modulate, Target, Confidence, Cap, AdjMax, Select;
  }

  lemma ArrivedSized(c: ClockState, e: Event)
    requires Sized(c) && e.Info? && Acceptable(c, e)
    ensures CanStream(c, e.port) && Sized(Arrived(c, e))
  {
    hide Updated;
    UpdatedLength(WithStream(c, e.port).streams[e.port].value, e.stc, e.pts, c.discontThreshold);
  }

  lemma SizedStep(c: ClockState, e: Event)
    requires Inv(c) && Sized(c) && Acceptable(c, e) && TimelyEvent(e) && ModerateEvent(e)
    ensures Sized(Process(c, e).0)
  {
    hide Adjusted, Updated, StreamInv, Moderate, StreamsOk, NoneStuck;
    if e.Info? {
      ArrivedSized(c, e);
      AdjustedSized(Arrived(c, e), e.stc);
    }
  }

  /** At such rates the only fault is the division by an attack period of 0. */
  lemma OnlyAttackPeriodFaults(c: ClockState, e: Event)
    requires Inv(c) && Sized(c) && Acceptable(c, e) && TimelyEvent(e) && ModerateEvent(e)
    ensures Fault in Process(c, e).1 <==>
      CompletesFrame(c, e) && !c.discont && c.latency.attackPeriod == 0
        && exists i :: 0 <= i < |c.streams| && HasSamples(Weighed(c, e)[i])
  {
    FaultIff(c, e);
    if CompletesFrame(c, e) {
      InRange(c, e.port);
      ArrivedSized(c, e);
      RefreshedSized(Arrived(c, e), e.stc);
    }
    hide Process, Arrived, NoneStuck, Inv, RefreshedStreams;
  }

  lemma InRange(c: ClockState, port: nat)
    requires Inv(c) && Sized(c) && port < |c.streams| && c.streams[port].Some?
    ensures !Overruns(c.streams[port].value.avg)
  {
  }

  /** With moderate frame rates and attack periods that are not 0, no run ever faults. */
  lemma {:induction false} SafeRunsGoOn(c: ClockState, es: seq<Event>, r: ClockState, e: Event)
    requires Inv(c) && Sized(c) && Runs(c, es, r) && Acceptable(r, e) && TimelyEvent(e) && c.latency.attackPeriod != 0
    requires forall i :: 0 <= i < |es| ==>
      ModerateEvent(es[i]) && (es[i].LatencyEvent? ==> es[i].latency.attackPeriod != 0)
    requires ModerateEvent(e)
    ensures Fault !in Process(r, e).1
    decreases |es|
  {
    hide Inv, Sized, Process, Acceptable, ModerateEvent, CompletesFrame;
    if es == [] {
      OnlyAttackPeriodFaults(c, e);
    } else {
      SizedStep(c, es[0]);
      ProcessKeeps(c, es[0]);
      LatencyStays(c, es[0]);
      SafeRunsGoOn(Process(c, es[0]).0, es[1..], r, e);
    }
  }

  lemma LatencyStays(c: ClockState, e: Event)
    requires Acceptable(c, e)
    ensures Process(c, e).0.latency == if e.LatencyEvent? then e.latency else c.latency
  {
    hide RefreshAll, Selected, Updated;
    if e.Info? && CanStream(c, e.port) {
      SelectedFrame(Arrived(c, e).(streams := RefreshedStreams(Arrived(c, e), e.stc)), e.stc);
    }
  }

  // ----- settings that do -----

  /** The configuration a component is created with (clock.c:861-886). */
  ghost predicate Default(c: ClockState) {
    && ClockControl.Init(c) && c.latency == Latency(60000, 0, 0)
    && c.frameRate == Rational(30, 1) && c.frameDuration == 0
  }

  /** With that configuration the third frame time on a port faults: two frame times, at 30 frames a
      second, start the clock, and no latency event has set an attack period. */
  lemma DefaultConfigurationFaults(c: ClockState)
    requires Default(c) && |c.streams| >= 1 && c.discontThreshold >= 33333
    ensures exists r ::
      && Runs(c, [Info(0, 0, 0), Info(0, 33333, 33333)], r)
      && Acceptable(r, Info(0, 66666, 66666)) && Fault in Process(r, Info(0, 66666, 66666)).1
  {
    hide Process, Inv, StreamInv, Runs;
    var first, second, third := Info(0, 0, 0), Info(0, 33333, 33333), Info(0, 66666, 66666);
    FirstInfoStarts(c);
    var started := Process(c, first).0;
    SecondInfoRestarts(started);
    var r := Process(started, second).0;
    CompletedFrameFaults(r, third);
    TwoSteps(c, first, second);
  }

  lemma TwoSteps(c: ClockState, first: Event, second: Event)
    requires Acceptable(c, first) && TimelyEvent(first) && Fault !in Process(c, first).1
    requires
      var d := Process(c, first).0;
      Acceptable(d, second) && TimelyEvent(second) && Fault !in Process(d, second).1
    ensures Runs(c, [first, second], Process(Process(c, first).0, second).0)
  {
    hide Process, Acceptable, TimelyEvent;
    assert [first, second][1..] == [second] && [second][1..] == [];
    var d := Process(c, first).0;
    assert Runs(d, [second], Process(d, second).0);
  }

  /** Port 0 has last seen the time stamp `t`, at time `t`. */
  ghost predicate Seen(c: ClockState, t: int) {
    |c.streams| >= 1 && c.streams[0].Some? && c.streams[0].value.started
    && c.streams[0].value.pts == c.streams[0].value.stc == t
  }

  lemma FirstInfoStarts(c: ClockState)
    requires Default(c) && |c.streams| >= 1
    ensures Inv(c) && Acceptable(c, Info(0, 0, 0))
    ensures
      var (r, cmds) := Process(c, Info(0, 0, 0));
      r.(streams := c.streams) == c && Seen(r, 0) && Inv(r) && Sized(r) && Fault !in cmds
  {
    ProcessKeeps(c, Info(0, 0, 0));
    assert FilterLength(c.frameRate) == 60;
  }

  lemma SecondInfoRestarts(c: ClockState)
    requires Inv(c) && Sized(c) && c.discont && Seen(c, 0) && c.discontThreshold >= 33333
    requires c.latency == Latency(60000, 0, 0) && c.frameDuration == 0
    ensures
      var (r, cmds) := Process(c, Info(0, 33333, 33333));
      && Inv(r) && Fault !in cmds && !r.discont && Seen(r, 33333)
      && r.latency == c.latency && r.frameDuration == c.frameDuration
      && r.discontThreshold == c.discontThreshold
  {
    hide StreamInv, Inserted, Mean;
    var e := Info(0, 33333, 33333);
    var u := Arrived(c, e);
    InRange(c, 0);
    ArrivedKeeps(c, e);
    ArrivedSized(c, e);
    RefreshedSized(u, e.stc);
    SampleStays(c, e);
    AdjustedCases(u, e.stc);
    AdjustedFrame(u, e.stc);
    ProcessKeeps(c, e);
    RefreshKeepsTimes(u.streams[0].value, e.stc, 0, 120000);
    hide Adjusted;
  }

  lemma RefreshKeepsTimes(s: StreamState, stc: int, drop: int, reset: int)
    ensures
      var r := Refreshed(s, stc, drop, reset);
      r.started == s.started && r.pts == s.pts && r.stc == s.stc
  {
  }

  lemma AdjustedFrame(c: ClockState, stc: int)
    requires SteadyInv(c)
    ensures
      var r := Adjusted(c, stc).0;
      r.latency == c.latency && r.frameDuration == c.frameDuration && r.discontThreshold == c.discontThreshold
  {
    hide Refreshed, Selected;
    SelectedFrame(c.(streams := RefreshedStreams(c, stc)), stc);
  }

  /** At a frame of three seconds the filters get length 0, and the second frame time of a port faults,
      although it only starts the clock. */
  lemma SlowRateFaults(c: ClockState)
    requires Default(c) && |c.streams| >= 1 && c.discontThreshold >= 33333
    ensures exists r ::
      && Runs(c, [FrameRate(Rational(1, 3), 1), Info(0, 0, 0)], r) && r.discont
      && Acceptable(r, Info(0, 33333, 33333)) && Fault in Process(r, Info(0, 33333, 33333)).1
  {
    hide Inv, StreamInv, Runs;
    var rate, first, second := FrameRate(Rational(1, 3), 1), Info(0, 0, 0), Info(0, 33333, 33333);
    DefaultHolds(c);
    ProcessKeeps(c, rate);
    var d := Process(c, rate).0;
    assert FilterLength(d.frameRate) == 0;
    ProcessKeeps(d, first);
    var r := Process(d, first).0;
    ZeroLengthFaults(r, second);
    TwoSteps(c, rate, first);
  }

  lemma DefaultHolds(c: ClockState)
    requires Default(c)
    ensures Inv(c)
  {
  }

  // ----- slewing -----

  /** `r` lies between `c` and its target, inclusively. */
  predicate Toward(c: int, target: int, r: int) {
    (c <= r <= target) || (target <= r <= c)
  }

  lemma ShiftWithin(a: int, m: int, scale: int)
    requires scale > 0 && 0 <= m <= scale
    ensures a >= 0 ==> 0 <= ShiftRight(a * m, scale) <= a
    ensures a <= 0 ==> a <= ShiftRight(a * m, scale) <= 0
  {
    Fewer(a, m, scale);
    ShiftBounds(a * m, scale);
    var q := ShiftRight(a * m, scale);
    assert (q + 1) * scale == q * scale + scale;
    if a >= 0 {
      assert 0 <= a * m;
      Scale(0, q + 1, scale);
      Scale(q, a, scale);
    } else {
      assert a * m <= 0;
      Scale(a, q + 1, scale);
      Scale(q, 0, scale);
    }
  }

  lemma FilledWithin(a: int, count: nat, length: nat)
    requires 1 <= length && count <= length
    ensures a >= 0 ==> 0 <= ShiftRight(Div(a * (count * 256), length), 256) <= a
    ensures a <= 0 ==> a <= ShiftRight(Div(a * (count * 256), length), 256) <= 0
  {
    var b := a * 256;
    assert a * (count * 256) == b * count;
    Fewer(b, count, length);
    if a >= 0 {
      assert 0 <= b * count;
      DivBetween(0, b, length, b * count);
    } else {
      assert b * count <= 0;
      DivBetween(b, 0, length, b * count);
    }
  }

  /** The modulated adjustment has the sign of the proportional one and is no larger. */
  lemma ModulateWithin(adjP: int, adjM: int, count: nat, length: nat)
    requires 0 <= adjM <= ONE && 1 <= length && count <= length
    ensures Toward(0, adjP, Modulate(adjP, adjM, count, length))
  {
    ShiftWithin(adjP, adjM, ONE);
    FilledWithin(ShiftRight(adjP * adjM, ONE), count, length);
  }

  lemma ConfidenceBounds(std: int, frameRateScale: nat)
    requires std >= 0
    ensures 0 <= Confidence(std, frameRateScale) <= ONE
  {
    assert std * frameRateScale >= 0;
  }

  /** The cap: what the attack rate allows in the time since the last update. */
  lemma CapMeaning(c: ClockState, stc: int)
    requires c.latency.attackPeriod > 0 && c.latency.attackRate >= 0
    ensures 0 <= AdjMax(c, stc)
    ensures stc >= c.stcAtUpdate ==>
      AdjMax(c, stc) * c.latency.attackPeriod <= (stc - c.stcAtUpdate) * c.latency.attackRate
    ensures stc >= c.stcAtUpdate && c.latency.attackRate <= c.latency.attackPeriod ==>
      AdjMax(c, stc) <= stc - c.stcAtUpdate
  {
    var delta := if stc > c.stcAtUpdate then stc - c.stcAtUpdate else 0;
    assert delta * c.latency.attackRate >= 0;
    DivBounds(delta * c.latency.attackRate, c.latency.attackPeriod);
    if c.latency.attackRate <= c.latency.attackPeriod {
      Fewer(delta, c.latency.attackRate, c.latency.attackPeriod);
      DivBetween(0, delta, c.latency.attackPeriod, delta * c.latency.attackRate);
    }
  }

  /** One update moves the clock offset toward the new target without overshoot, by no more than
      the attack rate allows. */
  lemma SlewStep(c: ClockState, stc: int, min: StreamState, max: StreamState)
    requires c.latency.attackPeriod > 0 && c.latency.attackRate >= 0 && StreamInv(min) && min.avg.length != 0
    ensures
      var r := Slewed(c, stc, min, max).0;
      && r.mtOffTarget == Target(c, min, max)
      && Toward(c.mtOffClk, r.mtOffTarget, r.mtOffClk)
      && Abs(r.mtOffClk - c.mtOffClk) <= AdjMax(c, stc)
  {
    hide Modulate, AdjMax, Confidence, Target;
    CapMeaning(c, stc);
    ConfidenceBounds(min.mtOffStd, c.frameRateScale);
    var target := Target(c, min, max);
    var adjP := Cap(target - c.mtOffClk, AdjMax(c, stc));
    ModulateWithin(adjP, Confidence(min.mtOffStd, c.frameRateScale), |min.avg.window|, min.avg.length);
  }

  /** With a full filter and no deviation nothing damps an update: the clock moves by the whole capped
      distance, and reaches its target when the attack rate allows it. */
  lemma SteadyUpdateReachesTarget(c: ClockState, stc: int, min: StreamState, max: StreamState)
    requires c.latency.attackPeriod > 0 && c.latency.attackRate >= 0 && StreamInv(min)
    requires min.mtOffStd == 0 && |min.avg.window| == min.avg.length != 0
    ensures
      var r, distance := Slewed(c, stc, min, max).0, Target(c, min, max) - c.mtOffClk;
      && r.mtOffClk - c.mtOffClk == Cap(distance, AdjMax(c, stc))
      && (Abs(distance) <= AdjMax(c, stc) ==> r.mtOffClk == r.mtOffTarget)
  {
    var adjP := Cap(Target(c, min, max) - c.mtOffClk, AdjMax(c, stc));
    assert Confidence(min.mtOffStd, c.frameRateScale) == ONE by {
      assert 0 * c.frameRateScale == 0;
    }
    hide Confidence, Target, AdjMax;
    UndampedModulate(adjP, |min.avg.window|);
    CapMeaning(c, stc);
  }

  lemma UndampedModulate(adjP: int, length: nat)
    requires length >= 1
    ensures Modulate(adjP, ONE, length, length) == adjP
  {
    assert ShiftRight(adjP * ONE, ONE) == adjP;
    var b := adjP * 256;
    assert adjP * (length * 256) == b * length;
    DivBetween(b, b, length, b * length);
  }

  /** Damping rounds downwards: with any deviation at all, the least step up is lost, while the least
      step down is taken in full once the filter is full. */
  lemma LeastStepsDiffer(adjM: int, length: nat)
    requires 0 < adjM < ONE && length >= 1
    ensures Modulate(1, adjM, length, length) == 0
    ensures Modulate(-1, adjM, length, length) == -1
  {
    assert ShiftRight(1 * adjM, ONE) == 0 && ShiftRight(-1 * adjM, ONE) == -1;
    assert 0 * (length * 256) == 0 * length;
    assert -1 * (length * 256) == -256 * length;
    DivBetween(0, 0, length, 0 * length);
    DivBetween(-256, -256, length, -256 * length);
  }

  /** An update outside a discontinuity either leaves the clock alone or slews it. */
  lemma AdjustedSlews(c: ClockState, stc: int)
    requires SteadyInv(c) && !c.discont && c.latency.attackPeriod > 0 && c.latency.attackRate >= 0
    ensures
      var (r, cmds) := Adjusted(c, stc);
      || (cmds == [] && r == c.(streams := r.streams))
      || (cmds == [Fault] && r == c.(streams := r.streams) && !NoneStuck(RefreshedStreams(c, stc)))
      || (&& cmds == [SetMediaTime(MediaTime(r))] && r.stcAtUpdate == stc && r.latency == c.latency
          && Toward(c.mtOffClk, r.mtOffTarget, r.mtOffClk)
          && Abs(r.mtOffClk - c.mtOffClk) <= AdjMax(c, stc))
    ensures !Adjusted(c, stc).0.discont
  {
    hide Refreshed, StreamInv, Toward, AdjMax, Target, Cap, Confidence, Modulate, RefreshAll;
    var streams := RefreshedStreams(c, stc);
    RefreshAllKeeps(c.streams, stc, 6 * c.frameDuration, 2 * c.latency.target);
    var d := c.(streams := streams);
    var choice := Select(streams);
    hide Select;
    if NoneStuck(streams) && 0 <= choice.min < |streams| && HasSamples(streams[choice.min])
       && 0 <= choice.max < |streams| && HasSamples(streams[choice.max]) {
      assert !Stuck(streams[choice.min]);
      SlewStep(d, stc, streams[choice.min].value, streams[choice.max].value);
      assert AdjMax(d, stc) == AdjMax(c, stc) by { SameCap(d, c, stc); }
    }
  }

  lemma SameCap(c: ClockState, d: ClockState, stc: int)
    requires c.latency == d.latency && c.stcAtUpdate == d.stcAtUpdate && c.latency.attackPeriod != 0
    ensures AdjMax(c, stc) == AdjMax(d, stc)
  {
  }

  /** A stretch of events without a discontinuity: the clock keeps running, wall-clock times do not
      decrease, and the attack settings make sense. */
  ghost predicate Calm(c: ClockState, es: seq<Event>, r: ClockState)
    decreases |es|
  {
    && !c.discont && c.latency.attackPeriod > 0 && c.latency.attackRate >= 0
    && (if es == [] then c == r
        else && Acceptable(c, es[0]) && TimelyEvent(es[0]) && (es[0].Info? ==> es[0].stc >= c.stcAtUpdate)
             && Fault !in Process(c, es[0]).1 && Calm(Process(c, es[0]).0, es[1..], r))
  }

  /** From `c` to `r` the clock offset moved at most at the attack rate, and, if that does not
      exceed the period, the media time did not go back. */
  ghost predicate Limited(c: ClockState, r: ClockState) {
    && r.latency == c.latency && r.stcAtUpdate >= c.stcAtUpdate
    && Abs(r.mtOffClk - c.mtOffClk) * c.latency.attackPeriod <= (r.stcAtUpdate - c.stcAtUpdate) * c.latency.attackRate
    && (c.latency.attackRate <= c.latency.attackPeriod ==> MediaTime(r) >= MediaTime(c))
  }

  lemma SameClockLimited(c: ClockState, r: ClockState)
    requires r.latency == c.latency && r.stcAtUpdate == c.stcAtUpdate && r.mtOffClk == c.mtOffClk
    ensures Limited(c, r)
  {
    assert (c.stcAtUpdate - c.stcAtUpdate) * c.latency.attackRate == 0;
  }

  lemma CalmAdjust(c: ClockState, stc: int)
    requires SteadyInv(c) && !c.discont && stc >= c.stcAtUpdate
    requires c.latency.attackPeriod > 0 && c.latency.attackRate >= 0
    ensures Limited(c, Adjusted(c, stc).0)
  {
    AdjustedSlews(c, stc);
    CapMeaning(c, stc);
    var r := Adjusted(c, stc).0;
    hide SteadyInv, Adjusted, AdjMax, Toward, NoneStuck;
    if r == c.(streams := r.streams) {
      SameClockLimited(c, r);
    } else {
      Scale(Abs(r.mtOffClk - c.mtOffClk), AdjMax(c, stc), c.latency.attackPeriod);
    }
  }

  lemma CalmInfo(c: ClockState, e: Event)
    requires Inv(c) && Acceptable(c, e) && TimelyEvent(e) && e.Info? && e.stc >= c.stcAtUpdate
    requires !c.discont && !Process(c, e).0.discont && c.latency.attackPeriod > 0 && c.latency.attackRate >= 0
    ensures Limited(c, Process(c, e).0)
  {
    if CanStream(c, e.port) {
      ArrivedKeeps(c, e);
      var u := Arrived(c, e);
      CalmAdjust(u, e.stc);
      SameClockLimited(c, u);
      hide Inv, SteadyInv, Adjusted, Updated, StreamInv, Limited;
      ThroughArrival(c, u, Adjusted(u, e.stc).0);
    } else {
      SameClockLimited(c, c);
    }
  }

  lemma ThroughArrival(c: ClockState, u: ClockState, r: ClockState)
    requires u.(streams := c.streams) == c
    ensures Limited(u, r) ==> Limited(c, r)
  {
  }

  /** Events other than frame data never move a running clock. */
  lemma OtherEventsLeaveClock(c: ClockState, e: Event)
    requires Acceptable(c, e) && !e.Info? && !Process(c, e).0.discont
    ensures
      var r := Process(c, e).0;
      r.latency == c.latency && r.stcAtUpdate == c.stcAtUpdate && r.mtOffClk == c.mtOffClk
  {
  }

  /** What one event of a calm stretch does to the clock. */
  lemma CalmStep(c: ClockState, e: Event)
    requires Inv(c) && Acceptable(c, e) && TimelyEvent(e) && (e.Info? ==> e.stc >= c.stcAtUpdate)
    requires !c.discont && !Process(c, e).0.discont && c.latency.attackPeriod > 0 && c.latency.attackRate >= 0
    ensures Fault !in Process(c, e).1 ==> Inv(Process(c, e).0)
    ensures Limited(c, Process(c, e).0)
  {
    hide Inv, Process, Limited, Acceptable;
    ProcessKeeps(c, e);
    if e.Info? {
      CalmInfo(c, e);
    } else {
      OtherEventsLeaveClock(c, e);
      SameClockLimited(c, Process(c, e).0);
    }
  }

  /** Over a whole calm stretch the clock offset drifts by at most the wall-clock time that passed
      times attackRate / attackPeriod; and if the rate does not exceed the period, the media time
      shown never goes backwards. */
  lemma {:induction false} DriftIsBounded(c: ClockState, es: seq<Event>, r: ClockState)
    requires Inv(c) && Calm(c, es, r)
    ensures Limited(c, r)
    decreases |es|
  {
    hide Inv, Process, Acceptable, TimelyEvent;
    if es == [] {
      SameClockLimited(c, r);
    } else {
      var d := Process(c, es[0]).0;
      CalmStep(c, es[0]);
      DriftIsBounded(d, es[1..], r);
      DriftAdds(c.mtOffClk, d.mtOffClk, r.mtOffClk, c.stcAtUpdate, d.stcAtUpdate, r.stcAtUpdate,
                c.latency.attackPeriod, c.latency.attackRate);
    }
  }

  lemma DriftAdds(a: int, b: int, c: int, ta: int, tb: int, tc: int, period: int, rate: int)
    requires period > 0
    requires Abs(b - a) * period <= (tb - ta) * rate && Abs(c - b) * period <= (tc - tb) * rate
    ensures Abs(c - a) * period <= (tc - ta) * rate
  {
    Scale(Abs(c - a), Abs(b - a) + Abs(c - b), period);
    assert (Abs(b - a) + Abs(c - b)) * period == Abs(b - a) * period + Abs(c - b) * period;
    assert (tc - ta) * rate == (tb - ta) * rate + (tc - tb) * rate;
  }
}
