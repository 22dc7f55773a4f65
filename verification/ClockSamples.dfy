/**
  What the averages of the clock component are averages of (clock.c:276-330): the difference between each
  time stamp and the time at which it arrived, read off the list of events. And what that means for the
  clocks when every stream arrives with the same difference (clock.c:499-510).
 */
module ClockSamples {
  import opened CInt
  import opened ClockFilter
  import opened ClockStream
  import opened ClockControl
  import opened ClockRuns
  import opened Mmal

  // ----- one stream -----

  /** Timing information: when it arrived, and the time stamp it carries. */
  datatype Stamp = Stamp(stc: int, pts: int)

  /** The stream after some timing information, one update after the other. */
  function Fed(s: StreamState, ts: seq<Stamp>, threshold: int): StreamState {
    if ts == [] then s
    else
      var last := ts[|ts| - 1];
      Updated(Fed(s, ts[..|ts| - 1], threshold), last.stc, last.pts, threshold).0
  }

  /** The timing information with a known time stamp. */
  function Known(ts: seq<Stamp>): seq<Stamp> {
    if ts == [] then []
    else
      var last := ts[|ts| - 1];
      Known(ts[..|ts| - 1]) + if last.pts == TIME_UNKNOWN then [] else [last]
  }

  /** One offset for each completed frame: where the time stamp changes, the last of the frame before it
      minus its arrival time. */
  function Offsets(ks: seq<Stamp>): seq<int> {
    if |ks| < 2 then []
    else
      var n := |ks| - 1;
      Offsets(ks[..n]) + if ks[n].pts != ks[n - 1].pts then [ks[n - 1].pts - ks[n - 1].stc] else []
  }

  /** The last `n` of some values, or all of them. */
  function Tail(xs: seq<int>, n: nat): seq<int> { if |xs| <= n then xs else xs[|xs| - n..] }

  /** The mean of some values rounded toward zero, and 0 for none. */
  function MeanOf(xs: seq<int>): int { if xs == [] then 0 else Div(Total(xs), |xs|) }

  /** How far each value is from the mean of the last `n` up to it. */
  function Deviations(xs: seq<int>, n: nat): seq<int> {
    if xs == [] then []
    else Deviations(xs[..|xs| - 1], n) + [Abs(xs[|xs| - 1] - MeanOf(Tail(xs, n)))]
  }

  /** No two successive time stamps or arrival times are further apart than the threshold. */
  ghost predicate Smooth(ks: seq<Stamp>, threshold: int) {
    forall i :: 0 < i < |ks| ==>
      Abs(ks[i].pts - ks[i - 1].pts) <= threshold && Abs(ks[i].stc - ks[i - 1].stc) <= threshold
  }

  ghost predicate AllTimely(ks: seq<Stamp>) {
    forall i :: 0 <= i < |ks| ==> Timely(ks[i].stc) && Timely(ks[i].pts)
  }

  /** The stream holds the latest offsets and deviations, as many as its filters are long, and their means. */
  ghost predicate Follows(s: StreamState, ks: seq<Stamp>, length: nat) {
    var offsets := Offsets(ks);
    && StreamInv(s) && s.avg.length == s.std.length == length
    && (s.started <==> ks != [])
    && (ks != [] ==> Stamp(s.stc, s.pts) == ks[|ks| - 1])
    && s.avg.window == Tail(offsets, length) && s.std.window == Tail(Deviations(offsets, length), length)
    && s.mtOffAvg == MeanOf(Tail(offsets, length))
    && s.mtOffStd == MeanOf(Tail(Deviations(offsets, length), length))
    && (length > MAX_FILTER_LENGTH ==> s.avg.at == |offsets|)
  }

  lemma TailGrows(xs: seq<int>, n: nat, x: int)
    requires n >= 1
    ensures Tail(xs + [x], n) == (if |Tail(xs, n)| == n then Tail(xs, n)[1..] else Tail(xs, n)) + [x]
  {
  }

  /** One sample more in a filter that follows `xs`. */
  lemma FilterFollows(f: FilterState, xs: seq<int>, x: int, lo: int, hi: int)
    requires f.length >= 1 && Exact(f, lo, hi) && SmallBounds(Room(f.length), lo, hi) && lo <= x <= hi
    requires !Overruns(f) && f.window == Tail(xs, f.length)
    ensures
      var g := Inserted(f, x);
      && g.length == f.length && Exact(g, lo, hi) && g.window == Tail(xs + [x], f.length) != []
      && Mean(g) == MeanOf(Tail(xs + [x], f.length)) && lo <= Mean(g) <= hi
      && g.at == IndexAfter(f.at, f.length)
  {
    InsertedShape(f, x);
    InsertedExact(f, lo, hi, x);
    TailGrows(xs, f.length, x);
    WindowFits(f, lo, hi);
    hide Exact, SmallBounds, Tail, Div, Total, SaturateAdd, Wrap;
    InsertedWindow(f, x);
    ExactSum(Inserted(f, x), lo, hi);
    MeanBetween(Inserted(f, x), lo, hi);
  }

  lemma InsertedWindow(f: FilterState, x: int)
    requires f.length >= 1
    ensures Inserted(f, x).window == (if |f.window| == f.length then f.window[1..] else f.window) + [x]
  {
  }

  lemma ExactSum(f: FilterState, lo: int, hi: int)
    requires Exact(f, lo, hi)
    ensures f.sum == Total(f.window)
  {
  }

  /** A completed frame. */
  lemma SampleFollows(s: StreamState, ks: seq<Stamp>, length: nat, stamp: Stamp)
    requires length >= 1 && Follows(s, ks, length) && ks != [] && !Overruns(s.avg)
    requires stamp.pts != s.pts && Timely(stamp.stc) && Timely(stamp.pts)
    requires length > MAX_FILTER_LENGTH ==> |Offsets(ks + [stamp])| <= MAX_FILTER_LENGTH
    ensures Follows(Sampled(s).(pts := stamp.pts, stc := stamp.stc), ks + [stamp], length)
  {
    hide Inserted, Exact, Tail, Deviations, MeanOf, Mean, SmallBounds, Room, Offsets, Overruns, IndexAfter;
    var xs, x := Offsets(ks), s.pts - s.stc;
    var devs := Deviations(xs, length);
    OffsetsNext(ks, stamp);
    SmallWithinHorizon(length);
    FilterFollows(s.avg, xs, x, -2 * HORIZON, 2 * HORIZON);
    var dev := Abs(x - Mean(Inserted(s.avg, x)));
    SameOverrun(s.avg, s.std);
    FilterFollows(s.std, devs, dev, 0, 4 * HORIZON);
    DeviationsNext(xs, x, length);
    SampledKeeps(s);
    if length > MAX_FILTER_LENGTH {
      NextIndex(s.avg.at, length);
    }
  }

  lemma OffsetsNext(ks: seq<Stamp>, stamp: Stamp)
    requires ks != [] && stamp.pts != ks[|ks| - 1].pts
    ensures Offsets(ks + [stamp]) == Offsets(ks) + [ks[|ks| - 1].pts - ks[|ks| - 1].stc]
  {
    assert (ks + [stamp])[..|ks|] == ks;
  }

  lemma DeviationsNext(xs: seq<int>, x: int, n: nat)
    ensures Deviations(xs + [x], n) == Deviations(xs, n) + [Abs(x - MeanOf(Tail(xs + [x], n)))]
  {
    hide MeanOf, Tail;
    assert (xs + [x])[..|xs|] == xs;
  }

  lemma SameOverrun(f: FilterState, g: FilterState)
    requires f.at == g.at
    ensures Overruns(f) == Overruns(g)
  {
  }

  lemma NextIndex(at: nat, length: nat)
    requires at < MAX_FILTER_LENGTH < length
    ensures IndexAfter(at, length) == at + 1
  {
  }

  /** Timing information that completes no frame. */
  lemma SameFrameFollows(s: StreamState, ks: seq<Stamp>, length: nat, stamp: Stamp)
    requires Follows(s, ks, length) && Timely(stamp.stc) && Timely(stamp.pts) && (ks != [] ==> stamp.pts == s.pts)
    ensures Follows(s.(started := true, pts := stamp.pts, stc := stamp.stc), ks + [stamp], length)
  {
    assert (ks + [stamp])[..|ks|] == ks;
    assert Offsets(ks + [stamp]) == Offsets(ks);
    hide Offsets, Exact, Deviations, MeanOf, Tail;
  }

  lemma StepFollows(s: StreamState, ks: seq<Stamp>, length: nat, stamp: Stamp, threshold: int)
    requires length >= 1 && Follows(s, ks, length) && stamp.pts != TIME_UNKNOWN
    requires Smooth(ks + [stamp], threshold) && Timely(stamp.stc) && Timely(stamp.pts)
    requires length > MAX_FILTER_LENGTH ==> |Offsets(ks + [stamp])| <= MAX_FILTER_LENGTH
    ensures Follows(Updated(s, stamp.stc, stamp.pts, threshold).0, ks + [stamp], length)
  {
    hide Follows, Sampled, Smooth, Offsets, Updated;
    FollowsLast(s, ks, length);
    SmoothLast(ks, stamp, threshold);
    if ks == [] || stamp.pts == s.pts {
      SameFrameFollows(s, ks, length, stamp);
      UpdatedWithin(s, stamp, threshold);
    } else {
      OffsetsNext(ks, stamp);
      NotYetFull(s, length);
      SampleFollows(s, ks, length, stamp);
      UpdatedWithin(s, stamp, threshold);
    }
  }

  lemma FollowsLast(s: StreamState, ks: seq<Stamp>, length: nat)
    requires Follows(s, ks, length)
    ensures StreamInv(s) && s.avg.length == length && (s.started <==> ks != [])
    ensures ks != [] ==> s.stc == ks[|ks| - 1].stc && s.pts == ks[|ks| - 1].pts
    ensures length > MAX_FILTER_LENGTH ==> s.avg.at == |Offsets(ks)|
  {
    hide StreamInv, Offsets, Tail, Deviations, MeanOf;
  }

  lemma SmoothLast(ks: seq<Stamp>, stamp: Stamp, threshold: int)
    requires Smooth(ks + [stamp], threshold)
    ensures ks != [] ==>
      Abs(stamp.pts - ks[|ks| - 1].pts) <= threshold && Abs(stamp.stc - ks[|ks| - 1].stc) <= threshold
  {
    var all := ks + [stamp];
    if ks != [] {
      assert all[|ks|] == stamp && all[|ks| - 1] == ks[|ks| - 1];
    }
  }

  /** An update without a jump. */
  lemma UpdatedWithin(s: StreamState, stamp: Stamp, threshold: int)
    requires stamp.pts != TIME_UNKNOWN
    requires s.started ==> Abs(stamp.pts - s.pts) <= threshold && Abs(stamp.stc - s.stc) <= threshold
    ensures
      var r := Updated(s, stamp.stc, stamp.pts, threshold).0;
      if !s.started || stamp.pts == s.pts then r == s.(started := true, pts := stamp.pts, stc := stamp.stc)
      else !Overruns(s.avg) ==> r == Sampled(s).(pts := stamp.pts, stc := stamp.stc)
  {
    hide Sampled, Overruns;
  }

  lemma NotYetFull(s: StreamState, length: nat)
    requires StreamInv(s) && s.avg.length == length >= 1
    requires length > MAX_FILTER_LENGTH ==> s.avg.at < MAX_FILTER_LENGTH
    ensures !Overruns(s.avg)
  {
  }

  /** Over any timing information without a jump, a stream's average filter holds exactly the latest
      offsets of the completed frames, its deviation filter their distances from the running mean, and its
      average and deviation are the means of these, rounded toward zero. */
  lemma {:induction false} StreamFollows(length: nat, ts: seq<Stamp>, threshold: int)
    requires length >= 1 && Smooth(Known(ts), threshold) && AllTimely(Known(ts))
    requires length > MAX_FILTER_LENGTH ==> |Offsets(Known(ts))| <= MAX_FILTER_LENGTH
    ensures Follows(Fed(NewStream(length), ts, threshold), Known(ts), length)
  {
    hide Follows, Updated, Offsets, Smooth, AllTimely;
    if ts == [] {
      NewFollows(length);
    } else {
      var front, last := ts[..|ts| - 1], ts[|ts| - 1];
      if last.pts == TIME_UNKNOWN {
        assert Known(ts) == Known(front);
        StreamFollows(length, front, threshold);
        UnknownChangesNothing(Fed(NewStream(length), front, threshold), last, threshold);
      } else {
        assert Known(ts) == Known(front) + [last];
        FrontOf(Known(front), last, threshold);
        StreamFollows(length, front, threshold);
        StepFollows(Fed(NewStream(length), front, threshold), Known(front), length, last, threshold);
      }
    }
  }

  lemma NewFollows(length: nat)
    requires length >= 1
    ensures Follows(NewStream(length), [], length)
  {
    NewStreamKeeps(length);
  }

  lemma UnknownChangesNothing(s: StreamState, stamp: Stamp, threshold: int)
    requires stamp.pts == TIME_UNKNOWN
    ensures Updated(s, stamp.stc, stamp.pts, threshold).0 == s
  {
  }

  lemma FrontOf(ks: seq<Stamp>, stamp: Stamp, threshold: int)
    requires Smooth(ks + [stamp], threshold) && AllTimely(ks + [stamp])
    ensures Smooth(ks, threshold) && AllTimely(ks) && Timely(stamp.stc) && Timely(stamp.pts)
    ensures |Offsets(ks)| <= |Offsets(ks + [stamp])|
  {
    var all := ks + [stamp];
    assert all[|ks|] == stamp;
    assert forall i :: 0 <= i < |ks| ==> all[i] == ks[i];
    assert all[..|ks|] == ks;
  }

  /** After a refresh as well, the averages are the means of what is left in the filters, which have lost the
      same samples. */
  lemma RefreshFollows(s: StreamState, stc: int, drop: int, reset: int)
    requires StreamInv(s)
    ensures
      var r := Refreshed(s, stc, drop, reset);
      && |r.avg.window| == |r.std.window|
      && r.avg.window == s.avg.window[|s.avg.window| - |r.avg.window|..]
      && r.std.window == s.std.window[|s.std.window| - |r.std.window|..]
      && (r.avg.window != [] ==>
            r.mtOffAvg == MeanOf(r.avg.window) && r.mtOffStd == MeanOf(r.std.window))
  {
    var a := Aged(s, stc, drop, reset);
    AgedKeeps(s, stc, drop, reset);
    AgedWindows(s, stc, drop, reset);
    hide Aged, Exact, Div, Total;
    if a.avg.window != [] {
      ExactSum(a.avg, -2 * HORIZON, 2 * HORIZON);
      ExactSum(a.std, 0, 4 * HORIZON);
    }
  }

  lemma AgedWindows(s: StreamState, stc: int, drop: int, reset: int)
    requires |s.avg.window| == |s.std.window|
    ensures
      var r := Aged(s, stc, drop, reset);
      && |r.avg.window| == |r.std.window| <= |s.avg.window|
      && r.avg.window == s.avg.window[|s.avg.window| - |r.avg.window|..]
      && r.std.window == s.std.window[|s.std.window| - |r.std.window|..]
  {
    hide Wrap;
  }

  // ----- the clocks -----

  /** Every stream arrives with the difference `d` between its time stamps and their arrival. */
  ghost predicate AtOffset(s: StreamState, d: int) {
    && (s.started ==> s.pts - s.stc == d)
    && Bounded(s.avg.window, d, d) && Bounded(s.std.window, 0, 0)
  }

  ghost predicate AllAtOffset(streams: seq<Option<StreamState>>, d: int) {
    forall i :: 0 <= i < |streams| && streams[i].Some? ==> AtOffset(streams[i].value, d)
  }

  predicate OffsetEvent(e: Event, d: int) { e.Info? && e.pts != TIME_UNKNOWN ==> e.pts - e.stc == d }

  /** The mean of samples that are all `d` is `d`. */
  lemma ConstantMean(f: FilterState, lo: int, hi: int, d: int)
    requires Exact(f, lo, hi) && f.window != [] && Bounded(f.window, d, d)
    ensures Mean(f) == d
  {
    MeanBetween(f, d, d);
  }

  lemma InsertedConstant(f: FilterState, lo: int, hi: int, d: int)
    requires Exact(f, lo, hi) && SmallBounds(Room(f.length), lo, hi) && lo <= d <= hi && CanInsert(f)
    requires Bounded(f.window, d, d)
    ensures Bounded(Inserted(f, d).window, d, d) && Inserted(f, d).window != [] && Mean(Inserted(f, d)) == d
  {
    InsertedExact(f, lo, hi, d);
    InsertedShape(f, d);
    ConstantMean(Inserted(f, d), lo, hi, d);
  }

  lemma SampledAtOffset(s: StreamState, d: int)
    requires StreamInv(s) && Settled(s) && s.started && AtOffset(s, d) && !Overruns(s.avg)
    ensures AtOffset(Sampled(s), d)
  {
    assert CanInsert(s.avg) && CanInsert(s.std);
    hide Inserted, Exact, Mean, SmallBounds, CanInsert, Room;
    SmallWithinHorizon(s.avg.length);
    InsertedConstant(s.avg, -2 * HORIZON, 2 * HORIZON, d);
    InsertedConstant(s.std, 0, 4 * HORIZON, 0);
  }

  lemma UpdatedAtOffset(s: StreamState, stc: int, pts: int, threshold: int, d: int)
    requires StreamInv(s) && Settled(s) && AtOffset(s, d) && (pts == TIME_UNKNOWN || pts - stc == d)
    ensures AtOffset(Updated(s, stc, pts, threshold).0, d)
  {
    hide Sampled;
    if s.started && !Overruns(s.avg) {
      SampledAtOffset(s, d);
      SampledKeeps(s);
    }
  }

  /** After the refresh the averages are `d` and the deviations 0 wherever there are samples. */
  lemma RefreshedAtOffset(s: StreamState, stc: int, drop: int, reset: int, d: int)
    requires StreamInv(s) && AtOffset(s, d)
    ensures
      var r := Refreshed(s, stc, drop, reset);
      AtOffset(r, d) && (r.avg.window != [] ==> r.mtOffAvg == d && r.mtOffStd == 0)
  {
    var a := Aged(s, stc, drop, reset);
    AgedKeeps(s, stc, drop, reset);
    if a.avg.window != [] {
      ConstantMean(a.avg, -2 * HORIZON, 2 * HORIZON, d);
      ConstantMean(a.std, 0, 4 * HORIZON, 0);
    }
  }

  lemma RefreshedAllAtOffset(c: ClockState, stc: int, d: int)
    requires SteadyInv(c) && AllAtOffset(c.streams, d)
    ensures AllAtOffset(RefreshedStreams(c, stc), d)
    ensures forall i {:trigger HasSamples(RefreshedStreams(c, stc)[i])} :: 0 <= i < |c.streams| ==>
      HasSamples(RefreshedStreams(c, stc)[i]) ==>
      RefreshedStreams(c, stc)[i].value.mtOffAvg == d && RefreshedStreams(c, stc)[i].value.mtOffStd == 0
  {
    hide Refreshed, StreamInv, AtOffset;
    forall i | 0 <= i < |c.streams| && c.streams[i].Some?
      ensures AtOffset(RefreshedStreams(c, stc)[i].value, d)
      ensures HasSamples(RefreshedStreams(c, stc)[i]) ==>
        RefreshedStreams(c, stc)[i].value.mtOffAvg == d && RefreshedStreams(c, stc)[i].value.mtOffStd == 0
    {
      RefreshedAtOffset(c.streams[i].value, stc, 6 * c.frameDuration, 2 * c.latency.target, d);
    }
  }

  /** What the control loop makes of such streams: it restarts on the common offset less the latency, and
      slews toward that or toward the offset less a frame, whichever is less. */
  lemma AdjustedAtOffset(c: ClockState, stc: int, d: int)
    requires SteadyInv(c) && AllAtOffset(c.streams, d)
    ensures
      var (r, cmds) := Adjusted(c, stc);
      && AllAtOffset(r.streams, d)
      && (forall t :: StartClocks(t) in cmds ==> t == d - c.latency.target + stc)
      && (forall t :: SetMediaTime(t) in cmds ==>
            r.mtOffTarget == Min(d - c.latency.target, d - c.frameDuration))
      && (c.discont && cmds != [] && Fault !in cmds ==>
            |cmds| >= 2 && cmds[..2] == [StopClocks, StartClocks(d - c.latency.target + stc)])
  {
    hide RefreshedStreams, AtOffset, Select, Modulate, Confidence, Cap, AdjMax, StreamsOk;
    RefreshedAllAtOffset(c, stc, d);
  }

  lemma RebasedAtOffset(c: ClockState, d: int)
    ensures AllAtOffset(Rebased(c).streams, d)
  {
  }

  lemma ArrivedAtOffset(c: ClockState, e: Event, d: int)
    requires Inv(c) && AllAtOffset(c.streams, d) && e.Info? && Acceptable(c, e) && CanStream(c, e.port)
    requires OffsetEvent(e, d)
    ensures AllAtOffset(Arrived(c, e).streams, d)
  {
    hide StreamInv, Updated;
    NewStreamKeeps(if c.frameRate.den != 0 then FilterLength(c.frameRate) else 0);
    var s := WithStream(c, e.port).streams[e.port].value;
    assert StreamInv(s) && AtOffset(s, d);
    assert c.streams[e.port].Some? ==> !Stuck(c.streams[e.port]);
    UpdatedAtOffset(s, e.stc, e.pts, c.discontThreshold, d);
    hide AtOffset;
  }

  lemma StepAtOffset(c: ClockState, e: Event, d: int)
    requires Inv(c) && Acceptable(c, e) && TimelyEvent(e) && AllAtOffset(c.streams, d) && OffsetEvent(e, d)
    ensures AllAtOffset(Process(c, e).0.streams, d)
    ensures forall t :: StartClocks(t) in Process(c, e).1 ==> e.Info? && t == d - c.latency.target + e.stc
  {
    hide Adjusted, Updated, Rebased, StreamInv, AtOffset, StreamsOk, NoneStuck;
    if e.Info? {
      if CanStream(c, e.port) {
        var u := Arrived(c, e);
        ArrivedKeeps(c, e);
        ArrivedAtOffset(c, e, d);
        AdjustedAtOffset(u, e.stc, d);
        RebasedAtOffset(u, d);
      }
    } else if e.ScaleEvent? {
      RebasedAtOffset(c.(scale := e.scale, pendingScale := true), d);
    } else if e.LatencyEvent? {
      RebasedAtOffset(c.(latency := e.latency), d);
    }
  }

  /** The latency that the component was last given. */
  function LastLatency(latency: Latency, es: seq<Event>): Latency
    decreases |es|
  {
    if es == [] then latency else LastLatency(if es[0].LatencyEvent? then es[0].latency else latency, es[1..])
  }

  lemma {:induction false} RunAtOffset(c: ClockState, es: seq<Event>, r: ClockState, d: int)
    requires Inv(c) && Runs(c, es, r) && AllAtOffset(c.streams, d)
    requires forall i :: 0 <= i < |es| ==> OffsetEvent(es[i], d)
    ensures Inv(r) && AllAtOffset(r.streams, d) && r.latency == LastLatency(c.latency, es)
    decreases |es|
  {
    hide Inv, AllAtOffset, Process, Acceptable, OffsetEvent, TimelyEvent;
    if es != [] {
      ProcessKeeps(c, es[0]);
      StepAtOffset(c, es[0], d);
      LatencyStays(c, es[0]);
      RunAtOffset(Process(c, es[0]).0, es[1..], r, d);
    }
  }

  /** In any run in which all streams arrive with the difference `d`, the clocks are only ever started on
      the time of arrival plus `d`, less the latency last asked for. */
  lemma StartsOnOffset(c: ClockState, es: seq<Event>, r: ClockState, e: Event, d: int, t: int)
    requires ClockControl.Init(c) && Runs(c, es, r) && Acceptable(r, e) && TimelyEvent(e)
    requires OffsetEvent(e, d) && forall i :: 0 <= i < |es| ==> OffsetEvent(es[i], d)
    requires StartClocks(t) in Process(r, e).1
    ensures e.Info? && t == d - LastLatency(c.latency, es).target + e.stc
  {
    hide Process, Runs, AtOffset;
    RunAtOffset(c, es, r, d);
    StepAtOffset(r, e, d);
  }

  /** And they are started so by every completed frame after a discontinuity, unless it faults. */
  lemma CompletedFrameStarts(c: ClockState, e: Event, d: int)
    requires Inv(c) && Acceptable(c, e) && TimelyEvent(e) && AllAtOffset(c.streams, d) && OffsetEvent(e, d)
    requires c.discont && CompletesFrame(c, e) && c.frameDuration >= 0 && c.latency.target >= 0
    requires Fault !in Process(c, e).1
    ensures
      var cmds := Process(c, e).1;
      |cmds| >= 2 && cmds[..2] == [StopClocks, StartClocks(d - c.latency.target + e.stc)]
  {
    hide Process, Inv, SteadyInv, AllAtOffset, Adjusted, Arrived, RefreshedStreams, HasSamples, NoneStuck;
    FaultIff(c, e);
    SampleStays(c, e);
    ArrivedKeeps(c, e);
    ArrivedAtOffset(c, e, d);
    var u := Arrived(c, e);
    FrameAdjusts(c, e);
    AdjustedAtOffset(u, e.stc, d);
    SomethingHappens(u, e.stc, e.port);
  }

  /** A completed frame with room for its sample adjusts the clocks. */
  lemma FrameAdjusts(c: ClockState, e: Event)
    requires Acceptable(c, e) && CompletesFrame(c, e) && !Overruns(c.streams[e.port].value.avg)
    ensures CanStream(c, e.port) && Process(c, e) == Adjusted(Arrived(c, e), e.stc)
    ensures |Arrived(c, e).streams| == |c.streams|
  {
    hide Adjusted, Sampled;
  }

  lemma SomethingHappens(c: ClockState, stc: int, port: nat)
    requires SteadyInv(c) && port < |c.streams| && HasSamples(RefreshedStreams(c, stc)[port])
    ensures Adjusted(c, stc).1 != []
  {
    hide RefreshedStreams, StreamInv, Select, Slewed;
    RefreshAllKeeps(c.streams, stc, 6 * c.frameDuration, 2 * c.latency.target);
    var streams := RefreshedStreams(c, stc);
    assert streams == RefreshAll(c.streams, stc, 6 * c.frameDuration, 2 * c.latency.target) by {
      RefreshedMeans(c, stc);
    }
    if NoneStuck(streams) {
      SelectFinds(streams);
      assert Select(streams).min != -1;
      assert !Stuck(streams[Select(streams).min]);
      if !c.discont {
        SlewedSays(c.(streams := streams), stc, streams[Select(streams).min].value, streams[Select(streams).max].value);
      }
    }
  }

  lemma RefreshedMeans(c: ClockState, stc: int)
    ensures RefreshedStreams(c, stc) == RefreshAll(c.streams, stc, 6 * c.frameDuration, 2 * c.latency.target)
  {
  }

  lemma SlewedSays(c: ClockState, stc: int, min: StreamState, max: StreamState)
    requires min.avg.length != 0
    ensures Slewed(c, stc, min, max).1 != []
  {
  }
}
