/**
  The control loop of the clock component (clock.c:355-675) as a function of its state: the
  refresh and selection of streams, the rate-limited adjustment of the media time, and the
  handling of discontinuities and scale changes. Commands sent to the clock ports are recorded.
 */
module ClockControl {
  import opened CInt
  import opened ClockFilter
  import opened ClockStream
  import opened Mmal

  datatype Rational = Rational(num: int, den: int)

  datatype Latency = Latency(target: int, attackPeriod: int, attackRate: int)

  /** What an event makes the component do to its clock ports; `Fault` is a division by zero or a write
      outside of a filter, after which nothing more happens. */
  datatype Command =
    | StopClocks
    | StartClocks(mediaTime: int)
    | SetMediaTime(time: int)
    | SetScale(scale: Rational)
    | Fault

  datatype ClockState = ClockState(
    streams: seq<Option<StreamState>>, discont: bool, mtOffTarget: int, mtOffClk: int,
    adjP: int, adjM: int, adj: int, stcAtUpdate: int,
    frameRate: Rational, frameDuration: int, frameRateScale: nat,
    scale: Rational, pendingScale: bool, latency: Latency, discontThreshold: int)

  datatype Event =
    | Info(port: nat, stc: int, pts: int)
    | ScaleEvent(scale: Rational)
    | LatencyEvent(latency: Latency)
    | DiscontThreshold(threshold: int)
    | FrameRate(rate: Rational, rateScale: nat)
    | OtherEvent

  /** mmal_rational_equal */
  predicate RationalEqual(a: Rational, b: Rational) {
    !(a.num != b.num && a.num * b.num == 0) && a.num * b.den == b.num * a.den
  }

  // ----- selection of the extreme streams -----

  /** The streams with the least and the greatest average so far; -1 stands for none. */
  datatype Choice = Choice(min: int, max: int, avgMin: int, avgMax: int)

  /** Streams with few samples are handicapped in proportion to what they lack. */
  function Bias(s: StreamState): int
    requires s.avg.length != 0
  {
    Div((s.avg.length - |s.avg.window|) * Abs(s.mtOffAvg), s.avg.length)
  }

  function Consider(c: Choice, i: int, s: Option<StreamState>): Choice {
    if s.None? || s.value.avg.window == [] || s.value.avg.length == 0 then c
    else
      var avg, bias := s.value.mtOffAvg, Bias(s.value);
      var c1 := if avg + bias < c.avgMin then c.(min := i, avgMin := avg) else c;
      if avg - bias > c1.avgMax then c1.(max := i, avgMax := avg) else c1
  }

  function Select(streams: seq<Option<StreamState>>): Choice {
    if streams == [] then Choice(-1, -1, TWO_63 - 1, -TWO_63)
    else Consider(Select(streams[..|streams| - 1]), |streams| - 1, streams[|streams| - 1])
  }

  predicate HasSamples(s: Option<StreamState>) { s.Some? && s.value.avg.window != [] }

  /** A stream with samples whose handicap divides by its filter length of 0 (clock.c:457). */
  predicate Stuck(s: Option<StreamState>) { HasSamples(s) && s.value.avg.length == 0 }

  ghost predicate NoneStuck(streams: seq<Option<StreamState>>) {
    forall i :: 0 <= i < |streams| ==> !Stuck(streams[i])
  }

  /** The first stream that does, or the number of streams. */
  function FirstStuck(streams: seq<Option<StreamState>>): (k: nat)
    ensures k <= |streams| && (forall i :: 0 <= i < k ==> !Stuck(streams[i]))
    ensures k < |streams| ==> Stuck(streams[k])
  {
    if streams == [] then 0
    else
      var n := |streams| - 1;
      var k := FirstStuck(streams[..n]);
      assert forall i :: 0 <= i < n ==> streams[..n][i] == streams[i];
      if k < n || Stuck(streams[n]) then k else n + 1
  }

  ghost predicate StreamsOk(streams: seq<Option<StreamState>>) {
    forall i :: 0 <= i < |streams| && streams[i].Some? ==> StreamInv(streams[i].value)
  }

  lemma BiasBounds(s: StreamState)
    requires StreamInv(s) && s.avg.length != 0
    ensures 0 <= Bias(s) <= Abs(s.mtOffAvg)
  {
    var m, k := Abs(s.mtOffAvg), s.avg.length - |s.avg.window|;
    Fewer(m, k, s.avg.length);
    assert 0 * s.avg.length <= k * m <= m * s.avg.length;
    DivBetween(0, m, s.avg.length, k * m);
  }

  ghost predicate Chosen(streams: seq<Option<StreamState>>, i: int, avg: int) {
    0 <= i < |streams| && HasSamples(streams[i]) && streams[i].value.mtOffAvg == avg
  }

  /** Where no division by a filter length of 0 ends the loop, a minimum and a maximum are found exactly
      when some stream has samples. */
  lemma {:induction false} SelectFinds(streams: seq<Option<StreamState>>)
    requires StreamsOk(streams) && NoneStuck(streams)
    ensures
      var c := Select(streams);
      && (c.min == -1 <==> c.max == -1)
      && (c.min == -1 ==> c.avgMin == TWO_63 - 1 && c.avgMax == -TWO_63)
      && (c.min == -1 <==> forall i :: 0 <= i < |streams| ==> !HasSamples(streams[i]))
      && (c.min != -1 ==> Chosen(streams, c.min, c.avgMin) && Chosen(streams, c.max, c.avgMax))
  {
    if streams != [] {
      var n := |streams| - 1;
      var front, s := streams[..n], streams[n];
      SelectFinds(front);
      assert forall i :: 0 <= i < n ==> front[i] == streams[i];
      if HasSamples(s) {
        BiasBounds(s.value);
      }
    }
  }

  /** No stream with samples beats the selected ones by more than its own handicap. */
  lemma {:induction false} SelectIsExtreme(streams: seq<Option<StreamState>>, j: nat)
    requires StreamsOk(streams) && NoneStuck(streams) && j < |streams| && HasSamples(streams[j])
    ensures Select(streams).avgMin <= streams[j].value.mtOffAvg + Bias(streams[j].value)
    ensures Select(streams).avgMax >= streams[j].value.mtOffAvg - Bias(streams[j].value)
    decreases |streams|
  {
    var n := |streams| - 1;
    var front, s := streams[..n], streams[n];
    assert forall i :: 0 <= i < n ==> front[i] == streams[i];
    if HasSamples(s) {
      BiasBounds(s.value);
    }
    hide Bias;
    if j < n {
      SelectIsExtreme(front, j);
    }
  }

  /** So once every filter is full the selected averages are the least and the greatest of all. */
  lemma FullFiltersSelectExactly(streams: seq<Option<StreamState>>)
    requires StreamsOk(streams) && NoneStuck(streams) && (exists i :: 0 <= i < |streams| && HasSamples(streams[i]))
    requires forall i :: 0 <= i < |streams| && HasSamples(streams[i]) ==>
      |streams[i].value.avg.window| == streams[i].value.avg.length
    ensures
      var c := Select(streams);
      && Chosen(streams, c.min, c.avgMin) && Chosen(streams, c.max, c.avgMax)
      && forall j :: 0 <= j < |streams| && HasSamples(streams[j]) ==> c.avgMin <= streams[j].value.mtOffAvg <= c.avgMax
  {
    SelectFinds(streams);
    hide Select;
    forall j | 0 <= j < |streams| && HasSamples(streams[j])
      ensures Select(streams).avgMin <= streams[j].value.mtOffAvg <= Select(streams).avgMax
    {
      SelectIsExtreme(streams, j);
      NoBias(streams[j].value);
    }
  }

  lemma NoBias(s: StreamState)
    requires s.avg.length != 0 && |s.avg.window| == s.avg.length
    ensures Bias(s) == 0
  {
    assert (s.avg.length - |s.avg.window|) * Abs(s.mtOffAvg) == 0;
  }

  // ----- one adjustment -----

  function RefreshAll(streams: seq<Option<StreamState>>, stc: int, drop: int, reset: int): (r: seq<Option<StreamState>>)
    ensures |r| == |streams|
    ensures forall i :: 0 <= i < |streams| ==>
      r[i] == if streams[i].Some? then Some(Refreshed(streams[i].value, stc, drop, reset)) else None
  {
    seq(|streams|, i requires 0 <= i < |streams| =>
      if streams[i].Some? then Some(Refreshed(streams[i].value, stc, drop, reset)) else None)
  }

  /** The cap on one proportional adjustment. */
  function AdjMax(c: ClockState, stc: int): int
    requires c.latency.attackPeriod != 0
  {
    var stcDelta := if stc > c.stcAtUpdate then stc - c.stcAtUpdate else 0;
    Div(stcDelta * c.latency.attackRate, c.latency.attackPeriod)
  }

  const ONE := 0x10_0000 // 2^20: an adjustment factor of one

  /** The confidence factor, between 0 and ONE when the deviation is not negative. */
  function Confidence(std: int, frameRateScale: nat): int {
    Max(ONE - ShiftRight(std * frameRateScale, 4), 0)
  }

  function Cap(a: int, limit: int): int {
    if a < -limit then -limit else if a > limit then limit else a
  }

  /** The proportional adjustment scaled by the confidence and by how full the filter is. */
  function Modulate(adjP: int, adjM: int, count: nat, length: nat): int
    requires length != 0
  {
    ShiftRight(Div(ShiftRight(adjP * adjM, ONE) * (count * 256), length), 256)
  }

  /** The new target: as late as the latency and the frame duration allow. */
  function Target(c: ClockState, min: StreamState, max: StreamState): int {
    Min(max.mtOffAvg - c.latency.target, min.mtOffAvg - c.frameDuration)
  }

  /** Restart the clocks on the media time of the earliest stream. */
  function Restarted(c: ClockState, stc: int, min: StreamState): (ClockState, seq<Command>) {
    var clk := min.mtOffAvg - c.latency.target;
    (c.(discont := false, mtOffClk := clk, mtOffTarget := clk, stcAtUpdate := stc),
     [StopClocks, StartClocks(clk + stc)])
  }

  /** Move the media time toward the target, unless the attack period makes that a division by zero. */
  function Slewed(c: ClockState, stc: int, min: StreamState, max: StreamState): (ClockState, seq<Command>)
    requires min.avg.length != 0
  {
    var target := Target(c, min, max);
    if c.latency.attackPeriod == 0 then (c.(mtOffTarget := target, stcAtUpdate := stc), [Fault])
    else
      var adjP := Cap(target - c.mtOffClk, AdjMax(c, stc));
      var adjM := Confidence(min.mtOffStd, c.frameRateScale);
      var adj := Modulate(adjP, adjM, |min.avg.window|, min.avg.length);
      (c.(mtOffTarget := target, adjP := adjP, adjM := adjM, adj := adj,
          mtOffClk := c.mtOffClk + adj, stcAtUpdate := stc),
       [SetMediaTime(c.mtOffClk + adj + stc)])
  }

  /** A pending scale change is applied at the end of an update. */
  function ApplyPending(r: (ClockState, seq<Command>)): (ClockState, seq<Command>) {
    if r.1 != [Fault] && r.0.pendingScale then (r.0.(pendingScale := false), r.1 + [SetScale(r.0.scale)]) else r
  }

  /** The part of an update after the extreme streams are known. */
  function Steered(c: ClockState, stc: int, min: StreamState, max: StreamState): (ClockState, seq<Command>) {
    if c.discont then ApplyPending(Restarted(c, stc, min))
    else if min.avg.length == 0 then (c, [])
    else ApplyPending(Slewed(c, stc, min, max))
  }

  /** The streams after the refresh. */
  function RefreshedStreams(c: ClockState, stc: int): (r: seq<Option<StreamState>>)
    ensures |r| == |c.streams|
  {
    RefreshAll(c.streams, stc, 6 * c.frameDuration, 2 * c.latency.target)
  }

  /** clock_adjust_clocks; the loop over the streams ends early at one whose handicap faults. */
  function Adjusted(c: ClockState, stc: int): (ClockState, seq<Command>) {
    var streams := RefreshedStreams(c, stc);
    var k := FirstStuck(streams);
    if k < |streams| then (c.(streams := streams[..k + 1] + c.streams[k + 1..]), [Fault])
    else Selected(c.(streams := streams), stc)
  }

  /** The part of an update after the streams have been refreshed. */
  function Selected(d: ClockState, stc: int): (ClockState, seq<Command>) {
    var choice := Select(d.streams);
    if !(0 <= choice.min < |d.streams| && 0 <= choice.max < |d.streams|) then (d, [])
    else if !(HasSamples(d.streams[choice.min]) && HasSamples(d.streams[choice.max])) then (d, [])
    else Steered(d, stc, d.streams[choice.min].value, d.streams[choice.max].value)
  }

  // ----- the other events -----

  /** clock_reset_clocks */
  function Rebased(c: ClockState): ClockState {
    c.(streams := seq(|c.streams|, i requires 0 <= i < |c.streams| =>
         if c.streams[i].Some? then Some(ResetStream(c.streams[i].value)) else None),
       discont := true)
  }

  /** Two seconds of frames, as a `uint32_t`. */
  function FilterLength(rate: Rational): nat
    requires rate.den != 0
  {
    Div(rate.num * 2, rate.den) % 0x1_0000_0000
  }

  /** Data comes from a port of the component. */
  predicate Acceptable(c: ClockState, e: Event) { e.Info? ==> e.port < |c.streams| }

  /** The first data on a port creates its stream, with a filter for two seconds of frames, unless that
      is a division by zero (clock.c:599). */
  predicate CanStream(c: ClockState, port: nat)
    requires port < |c.streams|
  {
    c.streams[port].Some? || c.frameRate.den != 0
  }

  function WithStream(c: ClockState, port: nat): ClockState
    requires port < |c.streams| && CanStream(c, port)
  {
    if c.streams[port].Some? then c
    else c.(streams := c.streams[port := Some(NewStream(FilterLength(c.frameRate)))])
  }

  function Process(c: ClockState, e: Event): (ClockState, seq<Command>)
    requires Acceptable(c, e)
  {
    match e
    case Info(port, stc, pts) =>
      if !CanStream(c, port) then (c, [Fault])
      else
        var d := WithStream(c, port);
        var (s, event) := Updated(d.streams[port].value, stc, pts, c.discontThreshold);
        var u := d.(streams := d.streams[port := Some(s)]);
        if event == FrameComplete then Adjusted(u, stc)
        else if event == Discont then (Rebased(u), [])
        else if event == Overrun then (u, [Fault])
        else (u, [])
    case ScaleEvent(scale) =>
      if scale.num == 0 then (c.(scale := scale, pendingScale := false), [SetScale(scale)])
      else if !RationalEqual(c.scale, scale) && scale.num == scale.den then
        (Rebased(c.(scale := scale, pendingScale := true)), [])
      else (c, [])
    case LatencyEvent(latency) => (Rebased(c.(latency := latency)), [])
    case DiscontThreshold(threshold) => (c.(discontThreshold := threshold), [])
    case FrameRate(rate, rateScale) =>
      var d := c.(frameRate := rate, frameRateScale := rateScale);
      if rate.num == 0 then (d, [Fault]) else (d.(frameDuration := Div(rate.den * 1000000, rate.num)), [])
    case OtherEvent => (c, [])
  }

  // ----- invariants over runs -----

  ghost predicate TimelyEvent(e: Event) {
    e.Info? ==> Timely(e.stc) && (e.pts == TIME_UNKNOWN || Timely(e.pts))
  }

  /** At any time a pending scale change implies a discontinuity. */
  ghost predicate SteadyInv(c: ClockState) {
    StreamsOk(c.streams) && (c.pendingScale ==> c.discont)
  }

  /** Between events, also, filters of length 0 are empty. */
  ghost predicate Inv(c: ClockState) { SteadyInv(c) && NoneStuck(c.streams) }

  ghost predicate Init(c: ClockState) {
    c.discont && !c.pendingScale && forall i :: 0 <= i < |c.streams| ==> c.streams[i].None?
  }

  lemma RefreshAllKeeps(streams: seq<Option<StreamState>>, stc: int, drop: int, reset: int)
    requires StreamsOk(streams)
    ensures StreamsOk(RefreshAll(streams, stc, drop, reset))
  {
    hide Refreshed, StreamInv;
    forall i | 0 <= i < |streams| && streams[i].Some?
      ensures StreamInv(Refreshed(streams[i].value, stc, drop, reset))
    {
      RefreshedKeeps(streams[i].value, stc, drop, reset);
    }
  }

  /** The possible outcomes of an update, and when each happens: nothing without samples, and a fault
      exactly when a stream with samples has a filter length of zero, or a running clock is to be slewed
      with an attack period of zero. */
  lemma AdjustedCases(c: ClockState, stc: int)
    requires SteadyInv(c)
    ensures
      var (r, cmds) := Adjusted(c, stc);
      var streams := RefreshedStreams(c, stc);
      && SteadyInv(r) && (Fault !in cmds ==> Inv(r))
      && (if !NoneStuck(streams) then r == c.(streams := r.streams) && cmds == [Fault]
          else if forall i :: 0 <= i < |streams| ==> !HasSamples(streams[i]) then
            r == c.(streams := streams) && cmds == []
          else r.streams == streams && !r.discont && !r.pendingScale && r.stcAtUpdate == stc
               && (Fault in cmds <==> !c.discont && c.latency.attackPeriod == 0))
  {
    hide Refreshed, StreamInv, RefreshAll, Selected;
    var streams := RefreshedStreams(c, stc);
    RefreshAllKeeps(c.streams, stc, 6 * c.frameDuration, 2 * c.latency.target);
    if NoneStuck(streams) {
      SelectedCases(c.(streams := streams), stc);
    }
  }

  /** The same after the loop over the streams. */
  lemma SelectedCases(d: ClockState, stc: int)
    requires SteadyInv(d) && NoneStuck(d.streams)
    ensures
      var (r, cmds) := Selected(d, stc);
      && Inv(r) && r.streams == d.streams
      && (if forall i :: 0 <= i < |d.streams| ==> !HasSamples(d.streams[i]) then r == d && cmds == []
          else !r.discont && !r.pendingScale && r.stcAtUpdate == stc
               && (Fault in cmds <==> !d.discont && d.latency.attackPeriod == 0))
  {
    hide StreamInv, Slewed;
    SelectFinds(d.streams);
    var choice := Select(d.streams);
    if choice.min != -1 && !d.discont {
      assert !Stuck(d.streams[choice.min]);
      SlewedFrame(d, stc, d.streams[choice.min].value, d.streams[choice.max].value);
    }
  }

  lemma SlewedFrame(c: ClockState, stc: int, min: StreamState, max: StreamState)
    requires min.avg.length != 0
    ensures
      var (r, cmds) := Slewed(c, stc, min, max);
      && r.discont == c.discont && r.pendingScale == c.pendingScale && r.streams == c.streams && r.stcAtUpdate == stc
      && (Fault in cmds <==> c.latency.attackPeriod == 0)
  {
  }

  lemma RebasedKeeps(c: ClockState)
    requires StreamsOk(c.streams)
    ensures Inv(Rebased(c))
  {
    hide ResetStream, StreamInv;
    var r := Rebased(c);
    forall i | 0 <= i < |c.streams| && c.streams[i].Some?
      ensures StreamInv(r.streams[i].value) && !Stuck(r.streams[i])
    {
      ResetKeeps(c.streams[i].value);
    }
  }

  /** The state after the stream of an event has been updated, before the clocks react. */
  function Arrived(c: ClockState, e: Event): ClockState
    requires e.Info? && e.port < |c.streams| && CanStream(c, e.port)
  {
    var d := WithStream(c, e.port);
    d.(streams := d.streams[e.port := Some(Updated(d.streams[e.port].value, e.stc, e.pts, c.discontThreshold).0)])
  }

  /** What the stream of an event reports. */
  function Reported(c: ClockState, e: Event): StreamEvent
    requires e.Info? && e.port < |c.streams| && CanStream(c, e.port)
  {
    Updated(WithStream(c, e.port).streams[e.port].value, e.stc, e.pts, c.discontThreshold).1
  }

  lemma ArrivedKeeps(c: ClockState, e: Event)
    requires Inv(c) && Acceptable(c, e) && TimelyEvent(e) && e.Info? && CanStream(c, e.port)
    ensures SteadyInv(Arrived(c, e)) && Arrived(c, e).(streams := c.streams) == c
    ensures !Reported(c, e).FrameComplete? ==> Inv(Arrived(c, e))
  {
    hide StreamInv, Updated;
    NewStreamKeeps(if c.frameRate.den != 0 then FilterLength(c.frameRate) else 0);
    var d := WithStream(c, e.port);
    assert Inv(d);
    assert !Stuck(d.streams[e.port]);
    UpdatedKeeps(d.streams[e.port].value, e.stc, e.pts, c.discontThreshold);
  }

  lemma InfoKeeps(c: ClockState, e: Event)
    requires Inv(c) && Acceptable(c, e) && TimelyEvent(e) && e.Info?
    ensures SteadyInv(Process(c, e).0) && (Fault !in Process(c, e).1 ==> Inv(Process(c, e).0))
  {
    hide StreamInv, Updated, Adjusted, Rebased;
    if CanStream(c, e.port) {
      var u := Arrived(c, e);
      ArrivedKeeps(c, e);
      AdjustedCases(u, e.stc);
      RebasedKeeps(u);
      hide StreamsOk, NoneStuck;
    }
  }

  /** Every event keeps what holds at any time, and one that does not fault keeps the invariant. */
  lemma ProcessKeeps(c: ClockState, e: Event)
    requires Inv(c) && Acceptable(c, e) && TimelyEvent(e)
    ensures SteadyInv(Process(c, e).0) && (Fault !in Process(c, e).1 ==> Inv(Process(c, e).0))
  {
    hide StreamsOk, StreamInv, NoneStuck, Updated, Adjusted, Rebased;
    if e.Info? {
      InfoKeeps(c, e);
    } else if e.ScaleEvent? {
      RebasedKeeps(c.(scale := e.scale, pendingScale := true));
    } else if e.LatencyEvent? {
      RebasedKeeps(c.(latency := e.latency));
    }
  }
}
