/**
  The numbers of the clock's control loop, read off the fields they are computed from: which stream is
  selected, where the clock starts, what its target is and how fast it gets there (clock.c:412-553), and
  what silence and jumps do to a stream (clock.c:296-306, 427-447).
 */
module ClockTiming {
  import opened CInt
  import opened ClockFilter
  import opened ClockStream
  import opened ClockControl
  import opened ClockRuns
  import opened Mmal

  // ----- the selection -----

  /** The handicap of a stream: its average in proportion to what its filter lacks, rounded down. */
  lemma BiasMeans(s: StreamState)
    requires StreamInv(s) && s.avg.length != 0
    ensures
      var lacking := (s.avg.length - |s.avg.window|) * Abs(s.mtOffAvg);
      Bias(s) * s.avg.length <= lacking < (Bias(s) + 1) * s.avg.length
  {
    assert |s.avg.window| <= s.avg.length;
    var lacking := (s.avg.length - |s.avg.window|) * Abs(s.mtOffAvg);
    assert lacking >= 0;
    DivBounds(lacking, s.avg.length);
    assert (Bias(s) + 1) * s.avg.length == Bias(s) * s.avg.length + s.avg.length;
  }

  /** A stream is only selected over an earlier one if, handicap and all, it beats that one's own. */
  lemma {:induction false} SelectedBeatsEarlier(streams: seq<Option<StreamState>>, j: nat)
    requires StreamsOk(streams) && NoneStuck(streams) && j < |streams| && HasSamples(streams[j])
    ensures
      var c, s := Select(streams), streams[j].value;
      && 0 <= c.min < |streams| && HasSamples(streams[c.min]) && 0 <= c.max < |streams| && HasSamples(streams[c.max])
      && (j < c.min ==> streams[c.min].value.mtOffAvg + Bias(streams[c.min].value) < s.mtOffAvg + Bias(s))
      && (j < c.max ==> streams[c.max].value.mtOffAvg - Bias(streams[c.max].value) > s.mtOffAvg - Bias(s))
    decreases |streams|
  {
    var n := |streams| - 1;
    var front := streams[..n];
    assert forall i :: 0 <= i < n ==> front[i] == streams[i];
    SelectFinds(streams);
    SelectFinds(front);
    hide Bias, StreamInv;
    if j < n {
      SelectedBeatsEarlier(front, j);
      SelectIsExtreme(front, j);
    }
  }

  /** With full filters and no discontinuity, the new target is the lesser of the greatest average less the
      latency and the least average less a frame. */
  lemma TargetMeans(c: ClockState, min: StreamState, max: StreamState)
    ensures Target(c, min, max) <= max.mtOffAvg - c.latency.target
    ensures Target(c, min, max) <= min.mtOffAvg - c.frameDuration
    ensures Target(c, min, max) in {max.mtOffAvg - c.latency.target, min.mtOffAvg - c.frameDuration}
  {
  }

  /** `a` is the least, `b` the greatest of the averages of the streams with samples. */
  ghost predicate Extremes(streams: seq<Option<StreamState>>, a: int, b: int) {
    && (exists i :: 0 <= i < |streams| && HasSamples(streams[i]) && streams[i].value.mtOffAvg == a)
    && (exists i :: 0 <= i < |streams| && HasSamples(streams[i]) && streams[i].value.mtOffAvg == b)
    && forall i :: 0 <= i < |streams| && HasSamples(streams[i]) ==> a <= streams[i].value.mtOffAvg <= b
  }

  /** While all filters are full: after a discontinuity the clocks start on the least average less the
      latency; otherwise the target is the lesser of the greatest average less the latency and the least
      average less a frame. */
  lemma SteersByExtremes(c: ClockState, stc: int, a: int, b: int)
    requires StreamsOk(c.streams) && NoneStuck(c.streams) && Extremes(c.streams, a, b)
    requires forall i :: 0 <= i < |c.streams| && HasSamples(c.streams[i]) ==>
      |c.streams[i].value.avg.window| == c.streams[i].value.avg.length
    ensures
      var (r, cmds) := Selected(c, stc);
      && (c.discont ==>
            && r.mtOffClk == r.mtOffTarget == a - c.latency.target
            && |cmds| >= 2 && cmds[0] == StopClocks && cmds[1] == StartClocks(a - c.latency.target + stc))
      && (!c.discont ==> r.mtOffTarget == Min(b - c.latency.target, a - c.frameDuration))
  {
    FullFiltersSelectExactly(c.streams);
    var choice := Select(c.streams);
    assert !Stuck(c.streams[choice.min]);
    hide Select, StreamInv, Modulate, Confidence, AdjMax, Cap;
  }

  // ----- the speed -----

  /** The cap: the time since the last update times the attack rate over the period, rounded down. */
  lemma CapIs(c: ClockState, stc: int)
    requires c.latency.attackPeriod > 0 && c.latency.attackRate >= 0
    ensures
      var passed := Max(stc - c.stcAtUpdate, 0) * c.latency.attackRate;
      AdjMax(c, stc) * c.latency.attackPeriod <= passed < (AdjMax(c, stc) + 1) * c.latency.attackPeriod
  {
    var passed := Max(stc - c.stcAtUpdate, 0) * c.latency.attackRate;
    assert passed >= 0;
    DivBounds(passed, c.latency.attackPeriod);
    assert (AdjMax(c, stc) + 1) * c.latency.attackPeriod ==
      AdjMax(c, stc) * c.latency.attackPeriod + c.latency.attackPeriod;
  }

  /** The confidence is 2^20 less a quarter of the deviation times the frame rate, as far as that is positive;
      so it is lost when the deviation times the rate reaches four seconds of 2^20. */
  lemma ConfidenceIs(std: int, frameRateScale: nat)
    requires std >= 0
    ensures
      var m := Confidence(std, frameRateScale);
      if std * frameRateScale < 4 * 1_048_576 then
        4 * (1_048_576 - m) <= std * frameRateScale < 4 * (1_048_576 - m) + 4
      else m == 0
  {
    assert std * frameRateScale >= 0;
    ShiftBounds(std * frameRateScale, 4);
  }

  /** While the deviation is that large the clock does not move. */
  lemma NoConfidenceNoMove(c: ClockState, stc: int, min: StreamState, max: StreamState)
    requires c.latency.attackPeriod > 0 && c.latency.attackRate >= 0 && min.avg.length != 0
    requires min.mtOffStd >= 0 && min.mtOffStd * c.frameRateScale >= 4 * ONE
    ensures Slewed(c, stc, min, max).0.mtOffClk == c.mtOffClk
  {
    ConfidenceIs(min.mtOffStd, c.frameRateScale);
    var p := Cap(Target(c, min, max) - c.mtOffClk, AdjMax(c, stc));
    hide Confidence, AdjMax, Cap, Target;
    assert p * 0 == 0;
    var count := |min.avg.window|;
    assert 0 * (count * 256) == 0 * min.avg.length;
    DivBetween(0, 0, min.avg.length, 0 * min.avg.length);
  }

  /** With a full filter the capped distance is damped by the confidence alone, rounded down. */
  lemma ConfidenceDamps(adjP: int, adjM: int, length: nat)
    requires length >= 1
    ensures
      var moved := Modulate(adjP, adjM, length, length);
      moved * 1_048_576 <= adjP * adjM < (moved + 1) * 1_048_576
  {
    var q := ShiftRight(adjP * adjM, ONE);
    ShiftBounds(adjP * adjM, ONE);
    var b := q * 256;
    assert q * (length * 256) == b * length;
    DivBetween(b, b, length, b * length);
    assert ShiftRight(b, 256) == q;
  }

  /** With full confidence it is damped by how full the filter is alone: upwards rounded down, and downwards
      by less than one more or less. */
  lemma FillingDamps(adjP: int, count: nat, length: nat)
    requires 1 <= length && count <= length
    ensures
      var moved := Modulate(adjP, ONE, count, length);
      && (adjP >= 0 ==> moved * length <= adjP * count < (moved + 1) * length)
      && (adjP <= 0 ==> (moved - 1) * length < adjP * count < (moved + 1) * length)
  {
    assert ShiftRight(adjP * ONE, ONE) == adjP;
    var a := adjP * (count * 256);
    var q := Div(a, length);
    var moved := ShiftRight(q, 256);
    assert a == (adjP * count) * 256;
    assert adjP >= 0 ==> a >= 0;
    assert adjP <= 0 ==> a <= 0;
    DivBounds(a, length);
    ShiftBounds(q, 256);
    ScaledFloor(adjP * count, length, q, moved);
  }

  /** `q` is `256 * x / n` rounded toward zero, and `m` is `q / 256` rounded down. */
  lemma ScaledFloor(x: int, n: nat, q: int, m: int)
    requires n >= 1 && m * 256 <= q < m * 256 + 256
    requires x * 256 >= 0 ==> q * n <= x * 256 < q * n + n
    requires x * 256 <= 0 ==> q * n - n < x * 256 <= q * n
    ensures x >= 0 ==> m * n <= x < (m + 1) * n
    ensures x <= 0 ==> (m - 1) * n < x < (m + 1) * n
  {
    Scale(m * 256, q, n);
    Scale(q + 1, m * 256 + 256, n);
    assert m * 256 * n == (m * n) * 256;
    assert (m * 256 + 256) * n == ((m + 1) * n) * 256;
    assert (q + 1) * n == q * n + n;
    assert (m - 1) * n == m * n - n;
  }

  // ----- silence and jumps -----

  /** What the refresh at `stc` leaves of a stream: nothing after a silence of more than twice the latency
      target, all but its oldest sample after one of more than six frames, and all of it otherwise. */
  ghost predicate AgedTo(before: StreamState, after: StreamState, silence: int, target: int, frame: int) {
    after.avg.window ==
      if silence > 2 * target then []
      else if silence > 6 * frame && before.avg.window != [] then before.avg.window[1..]
      else before.avg.window
  }

  /** So it is in every update, for every stream; a stream that has been silent for longer than twice the
      latency target is not selected. */
  lemma SilenceForgets(c: ClockState, stc: int, i: nat)
    requires SteadyInv(c) && i < |c.streams| && c.streams[i].Some? && Fault !in Adjusted(c, stc).1
    ensures
      var r, s := Adjusted(c, stc).0, c.streams[i].value;
      && |r.streams| == |c.streams| && r.streams[i].Some?
      && AgedTo(s, r.streams[i].value, stc - s.stc, c.latency.target, c.frameDuration)
      && (stc - s.stc > 2 * c.latency.target ==> i != Select(r.streams).min && i != Select(r.streams).max)
  {
    hide Selected, StreamInv;
    RefreshedWindow(c.streams[i].value, stc, 6 * c.frameDuration, 2 * c.latency.target);
    RefreshAllKeeps(c.streams, stc, 6 * c.frameDuration, 2 * c.latency.target);
    var streams := RefreshedStreams(c, stc);
    SelectedFrame(c.(streams := streams), stc);
    SelectFinds(streams);
    hide Select, Refreshed;
  }

  lemma RefreshedWindow(s: StreamState, stc: int, drop: int, reset: int)
    ensures Refreshed(s, stc, drop, reset).avg.window ==
      if stc - s.stc > reset then []
      else if stc - s.stc > drop && s.avg.window != [] then s.avg.window[1..]
      else s.avg.window
  {
  }

  /** The first known time stamp of a stream only starts it, and a jump of a time stamp or of an arrival
      beyond the threshold makes every stream start anew. */
  lemma JumpRebases(c: ClockState, e: Event)
    requires Acceptable(c, e) && e.Info? && e.pts != TIME_UNKNOWN && c.streams[e.port].Some?
    ensures
      var s, (r, cmds) := c.streams[e.port].value, Process(c, e);
      && (!s.started ==>
            && cmds == []
            && r == c.(streams := c.streams[e.port := Some(s.(started := true, pts := e.pts, stc := e.stc))]))
      && (s.started && (Abs(e.pts - s.pts) > c.discontThreshold || Abs(e.stc - s.stc) > c.discontThreshold) ==>
            && r == c.(streams := r.streams, discont := true) && cmds == [] && |r.streams| == |c.streams|
            && forall i :: 0 <= i < |r.streams| && r.streams[i].Some? ==>
                 !r.streams[i].value.started && r.streams[i].value.avg.window == [])
  {
    hide Adjusted, Sampled;
  }

  /** No stream has started, none has samples, and the next update restarts the clocks. */
  ghost predicate Anew(c: ClockState) {
    && c.discont
    && forall i :: 0 <= i < |c.streams| && c.streams[i].Some? ==>
         !c.streams[i].value.started && c.streams[i].value.avg.window == [] && c.streams[i].value.std.window == []
  }

  /** A new latency, and a resume that is accepted, make everything start anew; a new threshold does not. */
  lemma SettingsStartAnew(c: ClockState, latency: Latency, scale: Rational, threshold: int)
    ensures
      var (r, cmds) := Process(c, LatencyEvent(latency));
      cmds == [] && r == c.(latency := latency, streams := r.streams, discont := true) && Anew(r)
    ensures scale.num == scale.den != 0 && !(c.scale.num == c.scale.den != 0) ==>
      var (r, cmds) := Process(c, ScaleEvent(scale));
      && cmds == [] && Anew(r)
      && r == c.(scale := scale, pendingScale := true, streams := r.streams, discont := true)
    ensures Process(c, DiscontThreshold(threshold)) == (c.(discontThreshold := threshold), [])
  {
    if scale.num == scale.den != 0 {
      SpeedOneIff(c, scale);
    }
  }

  /** The first data of a port gives it a stream with empty filters of two seconds of frames, which has
      started if the data has a time stamp. */
  lemma FirstDataStarts(c: ClockState, e: Event)
    requires Acceptable(c, e) && e.Info? && c.streams[e.port].None? && c.frameRate.den != 0
    ensures
      var (r, cmds) := Process(c, e);
      && cmds == [] && r == c.(streams := c.streams[e.port := r.streams[e.port]]) && r.streams[e.port].Some?
      && var s := r.streams[e.port].value;
         && s.avg.length == s.std.length == FilterLength(c.frameRate)
         && s.avg.window == s.std.window == []
         && (s.started <==> e.pts != TIME_UNKNOWN)
         && (e.pts != TIME_UNKNOWN ==> s.pts == e.pts && s.stc == e.stc)
  {
    hide Adjusted, Sampled;
  }

  // ----- the settings -----

  /** A frame of `num/den` per second lasts `den` million over `num` microseconds, and the filters of a new
      stream are as long as two seconds of such frames are many. */
  lemma RateMeans(c: ClockState, rate: Rational, rateScale: nat)
    requires rate.num > 0 && 0 < rate.den && rate.num < 0x8000_0000
    ensures
      var (r, cmds) := Process(c, FrameRate(rate, rateScale));
      && cmds == [] && r == c.(frameRate := rate, frameRateScale := rateScale, frameDuration := r.frameDuration)
      && r.frameDuration * rate.num <= rate.den * 1_000_000 < (r.frameDuration + 1) * rate.num
    ensures FilterLength(rate) * rate.den <= 2 * rate.num < (FilterLength(rate) + 1) * rate.den
  {
    DivBounds(rate.den * 1_000_000, rate.num);
    DivBounds(rate.num * 2, rate.den);
    var d, n := Div(rate.den * 1_000_000, rate.num), Div(rate.num * 2, rate.den);
    assert (d + 1) * rate.num == d * rate.num + rate.num && (n + 1) * rate.den == n * rate.den + rate.den;
    assert n <= 2 * rate.num by { Fewer(n, 1, rate.den); }
  }

  /** A request for the speed 1 is accepted exactly when the scale is anything else. */
  lemma SpeedOneIff(c: ClockState, scale: Rational)
    requires scale.num == scale.den != 0
    ensures Process(c, ScaleEvent(scale)) ==
      if c.scale.num == c.scale.den != 0 then (c, [])
      else (Rebased(c.(scale := scale, pendingScale := true)), [])
  {
    var a, s := c.scale, scale;
    assert a.num * s.den - s.num * a.den == s.num * (a.num - a.den);
    if s.num * (a.num - a.den) == 0 {
      NoZeroDivisor(s.num, a.num - a.den);
    }
    if a.num == a.den != 0 {
      assert a.num * s.num != 0 by { if a.num * s.num == 0 { NoZeroDivisor(a.num, s.num); } }
    }
    hide Rebased;
  }

  lemma NoZeroDivisor(a: int, b: int)
    requires a * b == 0 && a != 0
    ensures b == 0
  {
  }
}
