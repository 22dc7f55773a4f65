/**
  The statistics that the clock component keeps for one stream (clock.c:230-330) and refreshes
  before it selects streams (clock.c:427-454).
 */
module ClockStream {
  import opened CInt
  import opened ClockFilter
  import opened Mmal

  /** Time stamps up to 2^52 microseconds, about 142 years, keep every 64-bit sum exact. */
  const HORIZON := 0x10_0000_0000_0000

  datatype StreamState = StreamState(
    started: bool, pts: int, stc: int, mtOff: int, mtOffAvg: int, mtOffStd: int, avg: FilterState, std: FilterState)

  /** `Overrun` is the write outside of a filter that is longer than its cells (clock.c:225). */
  datatype StreamEvent = NoEvent | Started | Discont | FrameComplete | Overrun

  function Mean(f: FilterState): int
    requires f.window != []
  {
    Div(f.sum, |f.window|)
  }

  function NewStream(length: nat): StreamState {
    StreamState(false, 0, 0, 0, 0, 0, Empty(length), Empty(length))
  }

  function ResetStream(s: StreamState): StreamState {
    StreamState(false, 0, 0, 0, 0, 0, Cleared(s.avg), Cleared(s.std))
  }

  /** A complete frame has been received: sample the offset of the previous time stamp. */
  function Sampled(s: StreamState): StreamState {
    var mtOff := s.pts - s.stc;
    var avg := Inserted(s.avg, mtOff);
    var mtOffAvg := Mean(avg);
    var std := Inserted(s.std, Abs(mtOff - mtOffAvg));
    s.(mtOff := mtOff, avg := avg, mtOffAvg := mtOffAvg, std := std, mtOffStd := Mean(std))
  }

  function Updated(s: StreamState, stc: int, pts: int, threshold: int): (StreamState, StreamEvent) {
    if pts == TIME_UNKNOWN then (s, NoEvent)
    else if !s.started then (s.(started := true, pts := pts, stc := stc), Started)
    else if Abs(pts - s.pts) > threshold || Abs(stc - s.stc) > threshold then (s, Discont)
    else if pts == s.pts then (s.(stc := stc), NoEvent)
    else if Overruns(s.avg) then (s.(mtOff := s.pts - s.stc), Overrun)
    else (Sampled(s).(pts := pts, stc := stc), FrameComplete)
  }

  /** Old samples leave both filters: all of them after `resetThreshold`, one after `dropThreshold`. */
  function Aged(s: StreamState, stc: int, dropThreshold: int, resetThreshold: int): StreamState {
    if stc - s.stc > resetThreshold then s.(avg := Cleared(s.avg), std := Cleared(s.std))
    else if stc - s.stc > dropThreshold then s.(avg := Dropped(s.avg), std := Dropped(s.std))
    else s
  }

  /** One turn of the refresh in clock_get_mt_off_avg. */
  function Refreshed(s: StreamState, stc: int, dropThreshold: int, resetThreshold: int): StreamState {
    var a := Aged(s, stc, dropThreshold, resetThreshold);
    if a.avg.window == [] || a.std.window == [] then a
    else a.(mtOffAvg := Mean(a.avg), mtOffStd := Mean(a.std))
  }

  // ----- what every operation keeps -----

  ghost predicate Timely(t: int) { -HORIZON <= t <= HORIZON }

  /** Both filters hold the same number of samples, sums are exact, and the averages are within
      the bounds of the samples; in particular the deviation is never negative. */
  ghost predicate StreamInv(s: StreamState) {
    && s.avg.length == s.std.length && |s.avg.window| == |s.std.window| && s.avg.at == s.std.at
    && Exact(s.avg, -2 * HORIZON, 2 * HORIZON) && Exact(s.std, 0, 4 * HORIZON)
    && Timely(s.pts) && Timely(s.stc)
    && -2 * HORIZON <= s.mtOffAvg <= 2 * HORIZON && 0 <= s.mtOffStd <= 4 * HORIZON
  }

  /** A filter of length 0 keeps no sample from one event to the next. */
  predicate Settled(s: StreamState) { s.avg.length == 0 ==> s.avg.window == [] }

  lemma NewStreamKeeps(length: nat)
    ensures StreamInv(NewStream(length)) && Settled(NewStream(length))
  {
  }

  lemma ResetKeeps(s: StreamState)
    requires StreamInv(s)
    ensures StreamInv(ResetStream(s)) && Settled(ResetStream(s))
  {
  }

  /** How an insert changes the shape of a filter. */
  lemma InsertedShape(f: FilterState, x: int)
    ensures
      var r := Inserted(f, x);
      && r.length == f.length && r.at == IndexAfter(f.at, f.length) && r.window != []
      && |r.window| == if |f.window| == f.length != 0 then |f.window| else |f.window| + 1
  {
  }

  lemma SmallWithinHorizon(length: nat)
    ensures SmallBounds(Room(length), -2 * HORIZON, 2 * HORIZON) && SmallBounds(Room(length), 0, 4 * HORIZON)
  {
  }

  /** A sample within the bounds of a filter keeps it exact, and the mean within them. */
  lemma InsertedMean(f: FilterState, lo: int, hi: int, x: int)
    requires Exact(f, lo, hi) && SmallBounds(Room(f.length), lo, hi) && lo <= x <= hi && CanInsert(f)
    ensures Exact(Inserted(f, x), lo, hi) && Inserted(f, x).window != [] && lo <= Mean(Inserted(f, x)) <= hi
  {
    InsertedShape(f, x);
    InsertedExact(f, lo, hi, x);
    hide Inserted, Exact, SmallBounds, CanInsert;
    MeanBetween(Inserted(f, x), lo, hi);
  }

  lemma SampledKeeps(s: StreamState)
    requires StreamInv(s) && Settled(s) && !Overruns(s.avg)
    ensures StreamInv(Sampled(s)) && Sampled(s).avg.window != []
    ensures Sampled(s).started == s.started && Sampled(s).pts == s.pts && Sampled(s).stc == s.stc
  {
    assert CanInsert(s.avg) && CanInsert(s.std);
    hide Inserted, Exact, Mean, SmallBounds, CanInsert, Room, IndexAfter;
    SmallWithinHorizon(s.avg.length);
    var mtOff := s.pts - s.stc;
    InsertedShape(s.avg, mtOff);
    InsertedMean(s.avg, -2 * HORIZON, 2 * HORIZON, mtOff);
    var dev := Abs(mtOff - Mean(Inserted(s.avg, mtOff)));
    InsertedShape(s.std, dev);
    InsertedMean(s.std, 0, 4 * HORIZON, dev);
  }

  lemma UpdatedKeeps(s: StreamState, stc: int, pts: int, threshold: int)
    requires StreamInv(s) && Settled(s) && Timely(stc) && (pts == TIME_UNKNOWN || Timely(pts))
    ensures StreamInv(Updated(s, stc, pts, threshold).0)
    ensures !Updated(s, stc, pts, threshold).1.FrameComplete? ==> Settled(Updated(s, stc, pts, threshold).0)
  {
    hide Sampled;
    if !Overruns(s.avg) {
      SampledKeeps(s);
    }
  }

  lemma AgedKeeps(s: StreamState, stc: int, dropThreshold: int, resetThreshold: int)
    requires StreamInv(s)
    ensures StreamInv(Aged(s, stc, dropThreshold, resetThreshold))
  {
    hide Wrap;
    DroppedExact(s.avg, -2 * HORIZON, 2 * HORIZON);
    DroppedExact(s.std, 0, 4 * HORIZON);
  }

  /** Refreshing keeps the filters in step, so neither division is by zero. */
  lemma RefreshedKeeps(s: StreamState, stc: int, dropThreshold: int, resetThreshold: int)
    requires StreamInv(s)
    ensures StreamInv(Refreshed(s, stc, dropThreshold, resetThreshold))
    ensures Aged(s, stc, dropThreshold, resetThreshold).avg.window == []
       <==> Aged(s, stc, dropThreshold, resetThreshold).std.window == []
  {
    var a := Aged(s, stc, dropThreshold, resetThreshold);
    AgedKeeps(s, stc, dropThreshold, resetThreshold);
    if a.avg.window != [] {
      MeanBetween(a.avg, -2 * HORIZON, 2 * HORIZON);
      MeanBetween(a.std, 0, 4 * HORIZON);
    }
  }

  // ----- the stream object -----

  class Stream {
    var started: bool
    var pts: int
    var stc: int
    var mtOff: int
    var mtOffAvg: int
    var mtOffStd: int
    const avgFilter: Filter
    const stdFilter: Filter

    /** The stream, its filters and their histories. */
    ghost function Repr(): set<object> {
      {this, avgFilter, avgFilter.h, stdFilter, stdFilter.h}
    }

    ghost predicate Valid()
      reads Repr()
    {
      && avgFilter != stdFilter && avgFilter.h != stdFilter.h
      && avgFilter.Valid() && stdFilter.Valid()
      && avgFilter.length == stdFilter.length && avgFilter.last == stdFilter.last
    }

    ghost function State(): StreamState
      requires Valid()
      reads Repr()
    {
      StreamState(started, pts, stc, mtOff, mtOffAvg, mtOffStd, avgFilter.State(), stdFilter.State())
    }

    constructor (length: nat)
      ensures Valid() && fresh(Repr()) && State() == NewStream(length)
    {
      hide Ring, LastOf;
      started, pts, stc, mtOff, mtOffAvg, mtOffStd := false, 0, 0, 0, 0, 0;
      var a := new Filter(length);
      var s := new Filter(length);
      avgFilter, stdFilter := a, s;
    }

    method Reset()
      requires Valid()
      modifies Repr()
      ensures Valid() && State() == ResetStream(old(State()))
    {
      hide Ring, LastOf;
      pts, stc, mtOff, mtOffAvg, mtOffStd := 0, 0, 0, 0, 0;
      started := false;
      avgFilter.Init();
      stdFilter.Init();
    }

    /** Insert the offset of the last time stamp into both filters. */
    method Sample()
      requires Valid() && CanInsert(State().avg) && CanInsert(State().std)
      modifies Repr()
      ensures Valid() && State() == Sampled(old(State()))
    {
      hide Inserted, Ring, Div;
      ghost var s := State();
      mtOff := pts - stc;
      avgFilter.Insert(mtOff);
      InsertedNonempty(s.avg, mtOff);
      mtOffAvg := Div(avgFilter.sum, avgFilter.count);
      stdFilter.Insert(Abs(mtOff - mtOffAvg));
      InsertedNonempty(s.std, Abs(mtOff - mtOffAvg));
      mtOffStd := Div(stdFilter.sum, stdFilter.count);
    }

    /** Whether an insert would write past the cells of the filters. */
    method Overflows() returns (b: bool)
      requires Valid()
      ensures b <==> Overruns(State().avg)
      ensures b <==> Overruns(State().std)
    {
      hide Ring;
      var next := avgFilter.IndexWrap(avgFilter.last);
      b := next >= MAX_FILTER_LENGTH;
    }

    method Update(newStc: int, newPts: int, threshold: int) returns (event: StreamEvent)
      requires Valid() && Settled(State()) && |State().avg.window| == |State().std.window|
      modifies Repr()
      ensures Valid() && (State(), event) == Updated(old(State()), newStc, newPts, threshold)
    {
      hide Sampled, Ring, IndexAfter;
      event := NoEvent;
      if newPts == TIME_UNKNOWN { return NoEvent; }
      if !started {
        started := true;
        pts := newPts;
        stc := newStc;
        return Started;
      }
      var ptsDelta := newPts - pts;
      var stcDelta := newStc - stc;
      if Abs(ptsDelta) > threshold || Abs(stcDelta) > threshold { return Discont; }
      if ptsDelta != 0 {
        var overflows := Overflows();
        if overflows {
          mtOff := pts - stc;
          return Overrun;
        }
        Sample();
        event := FrameComplete;
      }
      pts := newPts;
      stc := newStc;
    }

    /** The part of clock_get_mt_off_avg that works on one stream; `nonempty` tells whether the
        stream takes part in the selection. */
    method Refresh(now: int, dropThreshold: int, resetThreshold: int) returns (nonempty: bool)
      requires Valid() && |State().avg.window| == |State().std.window|
      modifies Repr()
      ensures Valid() && State() == Refreshed(old(State()), now, dropThreshold, resetThreshold)
      ensures nonempty <==> State().avg.window != []
    {
      hide Wrap, Ring;
      var stcDelta := now - stc;
      if stcDelta > resetThreshold {
        avgFilter.Init();
        stdFilter.Init();
      } else if stcDelta > dropThreshold {
        avgFilter.Drop();
        stdFilter.Drop();
      }
      nonempty := avgFilter.count != 0;
      if nonempty {
        mtOffAvg := Div(avgFilter.sum, avgFilter.count);
        mtOffStd := Div(stdFilter.sum, stdFilter.count);
      }
    }
  }

  lemma InsertedNonempty(f: FilterState, x: int)
    ensures Inserted(f, x).window != []
  {
  }
}
