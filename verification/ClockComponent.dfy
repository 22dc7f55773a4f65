/**
  The clock component itself (clock.c:333-634): an object with one optional stream per clock
  port, whose methods are proved to compute the functions of ClockControl. Commands to the
  clock ports are appended to `commands`.
 */
module ClockComponent {
  import opened CInt
  import opened ClockFilter
  import opened ClockStream
  import opened ClockControl
  import opened Mmal
  import ClockRuns

  /** The objects that the streams of the ports own. */
  ghost function Footprint(streams: seq<Stream?>): set<object> {
    set i, o | 0 <= i < |streams| && streams[i] != null && o in streams[i].Repr() :: o
  }

  ghost predicate Separate(streams: seq<Stream?>)
    reads Footprint(streams)
  {
    && (forall i :: 0 <= i < |streams| && streams[i] != null ==> streams[i].Valid())
    && (forall i, j :: 0 <= i < j < |streams| && streams[i] != null && streams[j] != null ==>
          streams[i].Repr() !! streams[j].Repr())
  }

  ghost function View(s: Stream?): Option<StreamState>
    requires s != null ==> s.Valid()
    reads if s == null then {} else s.Repr()
  {
    if s == null then None else Some(s.State())
  }

  /** The choice after a stream with this average and handicap has been compared. */
  function Noted(c: Choice, i: int, found: bool, avg: int, bias: int): Choice {
    if !found then c
    else
      var c1 := if avg + bias < c.avgMin then c.(min := i, avgMin := avg) else c;
      if avg - bias > c1.avgMax then c1.(max := i, avgMax := avg) else c1
  }

  ghost function Views(streams: seq<Stream?>): (r: seq<Option<StreamState>>)
    requires Separate(streams)
    reads Footprint(streams)
    ensures |r| == |streams| && forall i :: 0 <= i < |streams| ==> r[i] == View(streams[i])
    decreases |streams|
  {
    if streams == [] then [] else Views(streams[..|streams| - 1]) + [View(streams[|streams| - 1])]
  }

  /** The average of a stream and its handicap in the selection. */
  method Weigh(stream: Stream) returns (faults: bool, avg: int, bias: int)
    requires stream.Valid()
    ensures faults <==> stream.State().avg.length == 0
    ensures !faults ==> avg == stream.State().mtOffAvg && bias == Bias(stream.State())
  {
    avg, bias := stream.mtOffAvg, 0;
    faults := stream.avgFilter.length == 0;
    if faults { return; }
    bias := Div((stream.avgFilter.length - stream.avgFilter.count) * Abs(avg), stream.avgFilter.length);
  }

  /** What the selection loop does with one stream, up to a division by its filter length. */
  method ConsiderOne(stream: Stream, stc: int, dropThreshold: int, resetThreshold: int, i: int, ghost c: Choice)
    returns (faults: bool, found: bool, avg: int, bias: int)
    requires stream.Valid() && StreamInv(stream.State())
    modifies stream.Repr()
    ensures stream.Valid() && stream.State() == Refreshed(old(stream.State()), stc, dropThreshold, resetThreshold)
    ensures faults <==> Stuck(Some(stream.State()))
    ensures !faults ==> Consider(c, i, Some(stream.State())) == Noted(c, i, found, avg, bias)
  {
    hide Ring, Div;
    RefreshedKeeps(stream.State(), stc, dropThreshold, resetThreshold);
    found := stream.Refresh(stc, dropThreshold, resetThreshold);
    hide Refreshed;
    faults, avg, bias := false, 0, 0;
    if found {
      faults, avg, bias := Weigh(stream);
    }
  }

  /** Streams below `i` show `after`, the others still `before`. */
  ghost predicate RefreshedBelow(streams: seq<Stream?>, before: seq<Option<StreamState>>,
      after: seq<Option<StreamState>>, i: int)
    reads Footprint(streams)
  {
    && |before| == |after| == |streams| && Separate(streams) && 0 <= i <= |streams|
    && (forall j :: 0 <= j < i ==> View(streams[j]) == after[j])
    && (forall j :: i <= j < |streams| ==> View(streams[j]) == before[j])
  }

  lemma InFootprint(streams: seq<Stream?>, i: nat)
    requires i < |streams| && streams[i] != null
    ensures streams[i].Repr() <= Footprint(streams)
  {
  }

  /** Compare one stream with the choice so far. */
  method Compare(choice: Choice, i: int, found: bool, avg: int, bias: int) returns (next: Choice)
    ensures next == Noted(choice, i, found, avg, bias)
  {
    next := choice;
    if found {
      if avg + bias < choice.avgMin {
        next := next.(min := i, avgMin := avg);
      }
      if avg - bias > next.avgMax {
        next := next.(max := i, avgMax := avg);
      }
    }
  }

  /** Refresh stream `i`, leaving the others alone. */
  method RefreshOne(streams: seq<Stream?>, i: nat, stc: int, dropThreshold: int, resetThreshold: int,
      ghost choice: Choice)
    returns (faults: bool, found: bool, avg: int, bias: int)
    requires Separate(streams) && i < |streams| && streams[i] != null && StreamInv(streams[i].State())
    modifies streams[i].Repr()
    ensures streams[i].Valid()
    ensures streams[i].State() == Refreshed(old(streams[i].State()), stc, dropThreshold, resetThreshold)
    ensures forall j :: 0 <= j < |streams| && j != i && streams[j] != null ==>
      streams[j].Valid() && streams[j].State() == old(streams[j].State())
    ensures faults <==> Stuck(Some(streams[i].State()))
    ensures !faults ==> Consider(choice, i, Some(streams[i].State())) == Noted(choice, i, found, avg, bias)
  {
    hide Refreshed, StreamInv, Consider, Noted, Ring, Stuck, Stream.State;
    faults, found, avg, bias := ConsiderOne(streams[i], stc, dropThreshold, resetThreshold, i, choice);
    forall j | 0 <= j < |streams| && j != i && streams[j] != null
      ensures streams[j].Valid() && streams[j].State() == old(streams[j].State())
    {
      assert streams[j].Repr() !! streams[i].Repr();
    }
  }

  /** One turn of the selection loop. */
  method SelectionStep(streams: seq<Stream?>, i: nat, stc: int, dropThreshold: int, resetThreshold: int, choice: Choice,
                       ghost before: seq<Option<StreamState>>, ghost after: seq<Option<StreamState>>)
    returns (faults: bool, next: Choice)
    requires i < |streams| && RefreshedBelow(streams, before, after, i) && StreamsOk(before)
    requires after == RefreshAll(before, stc, dropThreshold, resetThreshold)
    modifies Footprint(streams)
    ensures RefreshedBelow(streams, before, after, i + 1)
    ensures faults <==> Stuck(after[i])
    ensures !faults ==> next == Consider(choice, i, after[i])
  {
    hide Refreshed, StreamInv, Consider, Noted, Stream.State, Stream.Valid, Footprint, Ring;
    assert View(streams[i]) == before[i];
    if streams[i] == null {
      ConsiderNone(choice, i);
      return false, choice;
    }
    hide Stuck;
    InFootprint(streams, i);
    assert StreamInv(before[i].value);
    var found, avg, bias;
    faults, found, avg, bias := RefreshOne(streams, i, stc, dropThreshold, resetThreshold, choice);
    next := Compare(choice, i, found, avg, bias);
  }

  /** The loop over the ports, up to the first stream whose handicap divides by zero. */
  method SelectionLoop(streams: seq<Stream?>, stc: int, dropThreshold: int, resetThreshold: int,
                       ghost before: seq<Option<StreamState>>, ghost after: seq<Option<StreamState>>)
    returns (faults: bool, choice: Choice, ghost k: nat)
    requires RefreshedBelow(streams, before, after, 0) && StreamsOk(before)
    requires after == RefreshAll(before, stc, dropThreshold, resetThreshold)
    modifies Footprint(streams)
    ensures k == FirstStuck(after) && (faults <==> k < |after|) && |before| == |after|
    ensures RefreshedBelow(streams, before, after, if faults then k + 1 else k)
    ensures !faults ==> choice == Select(after)
  {
    hide Consider, Stuck, RefreshAll, FirstStuck, StreamsOk, RefreshedBelow, Separate, Footprint, Select;
    RefreshedSize(streams, before, after, 0);
    NothingSelected(after);
    faults, choice := false, Choice(-1, -1, TWO_63 - 1, -TWO_63);
    var i := 0;
    while i < |streams|
      invariant 0 <= i <= |streams|
      invariant RefreshedBelow(streams, before, after, i)
      invariant forall j :: 0 <= j < i ==> !Stuck(after[j])
      invariant choice == Select(after[..i])
    {
      SelectNext(after, i);
      faults, choice := SelectionStep(streams, i, stc, dropThreshold, resetThreshold, choice, before, after);
      if faults {
        FirstIs(after, i);
        return true, choice, i;
      }
      i := i + 1;
    }
    FirstIs(after, i);
    assert after[..i] == after;
    return false, choice, i;
  }

  /** Refresh every stream and select the extreme ones; -1 stands for none. A division by zero ends the
      loop at the first stream whose filter length is 0. */
  method GetMtOffAvg(streams: seq<Stream?>, stc: int, dropThreshold: int, resetThreshold: int)
    returns (faults: bool, minimum: int, maximum: int)
    requires Separate(streams) && StreamsOk(Views(streams))
    modifies Footprint(streams)
    ensures Separate(streams)
    ensures
      var after := RefreshAll(old(Views(streams)), stc, dropThreshold, resetThreshold);
      var k := FirstStuck(after);
      && (faults <==> k < |after|)
      && Views(streams) == (if faults then after[..k + 1] + old(Views(streams))[k + 1..] else after)
    ensures !faults ==> minimum == Select(Views(streams)).min && maximum == Select(Views(streams)).max
  {
    hide RefreshAll, FirstStuck, StreamsOk, Select, Footprint, View, Views, Separate, RefreshedBelow, Stuck;
    ghost var before := Views(streams);
    ghost var after := RefreshAll(before, stc, dropThreshold, resetThreshold);
    NoneRefreshed(streams, after);
    var choice;
    ghost var k;
    faults, choice, k := SelectionLoop(streams, stc, dropThreshold, resetThreshold, before, after);
    HalfRefreshed(streams, before, after, if faults then k + 1 else k);
    if !faults {
      assert after[..k] == after && before[k..] == [];
    }
    minimum, maximum := choice.min, choice.max;
  }

  lemma NoneRefreshed(streams: seq<Stream?>, after: seq<Option<StreamState>>)
    requires Separate(streams) && |after| == |streams|
    ensures RefreshedBelow(streams, Views(streams), after, 0)
  {
  }

  lemma RefreshedSize(streams: seq<Stream?>, before: seq<Option<StreamState>>, after: seq<Option<StreamState>>, i: nat)
    requires RefreshedBelow(streams, before, after, i)
    ensures |before| == |after| == |streams|
  {
  }

  lemma NothingSelected(streams: seq<Option<StreamState>>)
    ensures Select(streams[..0]) == Choice(-1, -1, TWO_63 - 1, -TWO_63)
  {
  }

  lemma FirstIs(streams: seq<Option<StreamState>>, k: nat)
    requires k <= |streams| && forall i :: 0 <= i < k ==> !Stuck(streams[i])
    requires k < |streams| ==> Stuck(streams[k])
    ensures FirstStuck(streams) == k
  {
  }

  lemma HalfRefreshed(streams: seq<Stream?>, before: seq<Option<StreamState>>, after: seq<Option<StreamState>>, i: nat)
    requires RefreshedBelow(streams, before, after, i)
    ensures Separate(streams) && Views(streams) == after[..i] + before[i..]
  {
  }

  lemma SelectNext(streams: seq<Option<StreamState>>, i: nat)
    requires i < |streams|
    ensures Select(streams[..i + 1]) == Consider(Select(streams[..i]), i, streams[i])
  {
    assert streams[..i + 1][..i] == streams[..i];
  }

  lemma ConsiderNone(c: Choice, i: int)
    ensures Consider(c, i, None) == c
  {
  }

  /** Update one stream, leaving the others alone. */
  method UpdateOne(streams: seq<Stream?>, i: nat, stc: int, pts: int, threshold: int) returns (event: StreamEvent)
    requires Separate(streams) && i < |streams| && streams[i] != null
    requires StreamInv(streams[i].State()) && Settled(streams[i].State())
    modifies streams[i].Repr()
    ensures Separate(streams)
    ensures (streams[i].State(), event) == Updated(old(streams[i].State()), stc, pts, threshold)
    ensures forall j :: 0 <= j < |streams| && j != i ==> View(streams[j]) == old(View(streams[j]))
  {
    hide Ring, Stream.State, Updated;
    event := streams[i].Update(stc, pts, threshold);
    forall j | 0 <= j < |streams| && j != i && streams[j] != null
      ensures streams[j].Valid() && streams[j].State() == old(streams[j].State())
    {
      assert streams[j].Repr() !! streams[i].Repr();
    }
  }

  /** Reset one stream, leaving the others alone. */
  method ResetOne(streams: seq<Stream?>, i: nat)
    requires Separate(streams) && i < |streams| && streams[i] != null
    modifies streams[i].Repr()
    ensures streams[i].Valid() && streams[i].State() == ResetStream(old(streams[i].State()))
    ensures forall j :: 0 <= j < |streams| && j != i && streams[j] != null ==>
      streams[j].Valid() && streams[j].State() == old(streams[j].State())
  {
    hide Ring, Stream.State;
    streams[i].Reset();
    forall j | 0 <= j < |streams| && j != i && streams[j] != null
      ensures streams[j].Valid() && streams[j].State() == old(streams[j].State())
    {
      assert streams[j].Repr() !! streams[i].Repr();
    }
  }

  function ResetAll(streams: seq<Option<StreamState>>): (r: seq<Option<StreamState>>)
    ensures |r| == |streams|
    ensures forall i :: 0 <= i < |streams| ==>
      r[i] == if streams[i].Some? then Some(ResetStream(streams[i].value)) else None
  {
    seq(|streams|, i requires 0 <= i < |streams| =>
      if streams[i].Some? then Some(ResetStream(streams[i].value)) else None)
  }

  method ResetStep(streams: seq<Stream?>, i: nat, ghost before: seq<Option<StreamState>>,
      ghost after: seq<Option<StreamState>>)
    requires i < |streams| && RefreshedBelow(streams, before, after, i) && after == ResetAll(before)
    modifies Footprint(streams)
    ensures RefreshedBelow(streams, before, after, i + 1)
  {
    hide ResetStream, Stream.State, Stream.Valid, Footprint, Ring;
    assert View(streams[i]) == before[i];
    if streams[i] != null {
      InFootprint(streams, i);
      ResetOne(streams, i);
    }
  }

  /** Reset the streams of all ports. */
  method ResetStreams(streams: seq<Stream?>)
    requires Separate(streams)
    modifies Footprint(streams)
    ensures Separate(streams) && Views(streams) == ResetAll(old(Views(streams)))
  {
    hide ResetStream;
    ghost var before := Views(streams);
    ghost var after := ResetAll(before);
    var i := 0;
    assert RefreshedBelow(streams, before, after, 0);
    while i < |streams|
      invariant 0 <= i <= |streams|
      invariant RefreshedBelow(streams, before, after, i)
    {
      hide RefreshedBelow, Separate, Footprint;
      ResetStep(streams, i, before, after);
      i := i + 1;
    }
    assert Views(streams) == after;
  }

  // ----- the component -----

  class Component {
    var streams: seq<Stream?>
    var clockDiscont: bool
    var mtOffTarget: int
    var mtOffClk: int
    var adjP: int
    var adjM: int
    var adj: int
    var stcAtUpdate: int
    var frameRate: Rational
    var frameDuration: int
    var frameRateScale: nat
    var scale: Rational
    var pendingScale: bool
    var latency: Latency
    var discontThreshold: int
    var commands: seq<Command>

    ghost predicate Valid()
      reads this, Footprint(streams)
    {
      this !in Footprint(streams) && Separate(streams)
    }

    ghost function State(): ClockState
      requires Valid()
      reads this, Footprint(streams)
    {
      ClockState(Views(streams), clockDiscont, mtOffTarget, mtOffClk, adjP, adjM, adj, stcAtUpdate, frameRate,
                 frameDuration, frameRateScale, scale, pendingScale, latency, discontThreshold)
    }

    constructor (ports: nat, initialScale: Rational, threshold: int)
      ensures Valid() && ClockRuns.Default(State()) && |streams| == ports && commands == []
      ensures State().scale == initialScale && State().discontThreshold == threshold
    {
      streams := seq(ports, _ => null);
      clockDiscont, pendingScale := true, false;
      mtOffTarget, mtOffClk, adjP, adjM, adj, stcAtUpdate := 0, 0, 0, 0, 0, 0;
      frameRate, frameDuration, frameRateScale := Rational(30, 1), 0, 1;
      scale, latency, discontThreshold := initialScale, Latency(60000, 0, 0), threshold;
      commands := [];
    }

    /** clock_set_scale: apply a scale to all ports. */
    method SetClockScale(newScale: Rational)
      requires Valid()
      modifies this`pendingScale, this`commands
      ensures Valid() && State() == old(State()).(pendingScale := false)
      ensures commands == old(commands) + [SetScale(newScale)]
    {
      commands := commands + [SetScale(newScale)];
      pendingScale := false;
    }

    /** The discontinuity branch of clock_adjust_clocks. */
    method Restart(stc: int, avg: int, ghost min: StreamState)
      requires Valid() && avg == min.mtOffAvg
      modifies this`clockDiscont, this`mtOffClk, this`mtOffTarget, this`stcAtUpdate, this`commands
      ensures Valid() && State() == Restarted(old(State()), stc, min).0
      ensures commands == old(commands) + Restarted(old(State()), stc, min).1
    {
      hide Views, View, Footprint, Separate;
      stcAtUpdate := stc;
      clockDiscont := false;
      mtOffClk := avg - latency.target;
      mtOffTarget := mtOffClk;
      commands := commands + [StopClocks];
      commands := commands + [StartClocks(mtOffClk + stc)];
      assert commands == old(commands) + [StopClocks, StartClocks(mtOffClk + stc)];
    }

    /** Store an adjustment and move the clocks by it. */
    method ApplySlew(stc: int, target: int, p: int, m: int, a: int)
      requires Valid()
      modifies this`mtOffTarget, this`adjP, this`adjM, this`adj, this`mtOffClk, this`stcAtUpdate, this`commands
      ensures Valid()
      ensures State() == old(State()).(mtOffTarget := target, adjP := p, adjM := m, adj := a,
                                       mtOffClk := old(mtOffClk) + a, stcAtUpdate := stc)
      ensures commands == old(commands) + [SetMediaTime(old(mtOffClk) + a + stc)]
    {
      hide Views, View, Footprint, Separate;
      StoreAdjustment(p, m, a);
      stcAtUpdate, mtOffTarget := stc, target;
      mtOffClk := mtOffClk + a;
      commands := commands + [SetMediaTime(mtOffClk + stc)];
    }

    method StoreAdjustment(p: int, m: int, a: int)
      requires Valid()
      modifies this`adjP, this`adjM, this`adj
      ensures Valid() && State() == old(State()).(adjP := p, adjM := m, adj := a)
    {
      hide Views, View, Footprint, Separate;
      adjP, adjM, adj := p, m, a;
    }

    /** Nothing happens after a division by zero or a write outside of a filter. */
    method Stop()
      requires Valid()
      modifies this`commands
      ensures Valid() && State() == old(State()) && commands == old(commands) + [Fault]
    {
      hide Views, View, Footprint, Separate;
      commands := commands + [Fault];
    }

    /** What has happened when the division by the attack period faults. */
    method DivideByZero(stc: int, target: int)
      requires Valid()
      modifies this`mtOffTarget, this`stcAtUpdate, this`commands
      ensures Valid() && State() == old(State()).(mtOffTarget := target, stcAtUpdate := stc)
      ensures commands == old(commands) + [Fault]
    {
      hide Views, View, Footprint, Separate;
      stcAtUpdate, mtOffTarget := stc, target;
      commands := commands + [Fault];
    }

    /** The control-loop branch of clock_adjust_clocks. */
    method Slew(stc: int, avg: int, std: int, count: nat, length: nat, maxAvg: int,
                ghost min: StreamState, ghost max: StreamState)
      requires Valid() && length != 0
      requires avg == min.mtOffAvg && std == min.mtOffStd && count == |min.avg.window| && length == min.avg.length
      requires maxAvg == max.mtOffAvg
      modifies this`mtOffTarget, this`adjP, this`adjM, this`adj, this`mtOffClk, this`stcAtUpdate, this`commands
      ensures Valid() && State() == Slewed(old(State()), stc, min, max).0
      ensures commands == old(commands) + Slewed(old(State()), stc, min, max).1
    {
      hide Views, View, Footprint, Separate, Confidence, Div, ShiftRight;
      var stcPrev := stcAtUpdate;
      var mtOffTargetMax := maxAvg - latency.target;
      var mtOffTargetMin := avg - frameDuration;
      var target := Min(mtOffTargetMax, mtOffTargetMin);
      if latency.attackPeriod == 0 {
        DivideByZero(stc, target);
        return;
      }
      var stcDelta := if stc > stcPrev then stc - stcPrev else 0;
      var adjPMax := Div(stcDelta * latency.attackRate, latency.attackPeriod);
      var p := target - mtOffClk;
      if p < -adjPMax {
        p := -adjPMax;
      } else if p > adjPMax {
        p := adjPMax;
      }
      var m := Confidence(std, frameRateScale);
      var a := ShiftRight(p * m, ONE);
      a := ShiftRight(Div(a * (count * 256), length), 256);
      ApplySlew(stc, target, p, m, a);
    }

    /** What follows the selection in clock_adjust_clocks. */
    method Steer(stc: int, min: Stream, max: Stream)
      requires Valid() && min.Valid() && max.Valid() && min.State().avg.length != 0
      modifies this
      ensures Valid() && streams == old(streams)
      ensures State() == Steered(old(State()), stc, min.State(), max.State()).0
      ensures commands == old(commands) + Steered(old(State()), stc, min.State(), max.State()).1
    {
      hide Views, View, Footprint, Separate, Slewed, Restarted, Ring;
      ghost var a, b := min.State(), max.State();
      ghost var c, before := State(), commands;
      if clockDiscont {
        Restart(stc, min.mtOffAvg, a);
        RestartedKeepsScale(c, stc, a);
      } else {
        Slew(stc, min.mtOffAvg, min.mtOffStd, min.avgFilter.count, min.avgFilter.length, max.mtOffAvg, a, b);
        SlewedKeepsScale(c, stc, a, b);
        if latency.attackPeriod == 0 { return; }
      }
      if pendingScale {
        SetClockScale(scale);
      }
    }

    /** What clock_adjust_clocks does with the selected streams. */
    method SteerSelected(stc: int, minimum: int, maximum: int)
      requires Valid() && StreamsOk(Views(streams)) && NoneStuck(Views(streams))
      requires minimum == Select(Views(streams)).min && maximum == Select(Views(streams)).max
      modifies this
      ensures Valid() && streams == old(streams)
      ensures State() == Selected(old(State()), stc).0 && commands == old(commands) + Selected(old(State()), stc).1
    {
      hide StreamInv, Select, Steered, Footprint, Ring, Views, StreamsOk, Separate;
      SelectFinds(Views(streams));
      if minimum == -1 || maximum == -1 { return; }
      PortView(streams, minimum);
      PortView(streams, maximum);
      assert !Stuck(Views(streams)[minimum]);
      Steer(stc, streams[minimum], streams[maximum]);
    }

    /** clock_adjust_clocks */
    method AdjustClocks(stc: int)
      requires Valid() && StreamsOk(Views(streams))
      modifies this, Footprint(streams)
      ensures Valid() && streams == old(streams)
      ensures State() == Adjusted(old(State()), stc).0 && commands == old(commands) + Adjusted(old(State()), stc).1
    {
      hide Refreshed, StreamInv, RefreshAll, Select, Selected, Footprint, Ring, Views, StreamsOk, Stuck;
      ghost var c := State();
      RefreshAllKeeps(c.streams, stc, 6 * frameDuration, 2 * latency.target);
      var faults, minimum, maximum := GetMtOffAvg(streams, stc, 6 * frameDuration, 2 * latency.target);
      if faults {
        Stop();
      } else {
        SteerSelected(stc, minimum, maximum);
      }
    }

    /** clock_reset_clocks */
    method ResetClocks()
      requires Valid()
      modifies this`clockDiscont, Footprint(streams)
      ensures Valid() && State() == Rebased(old(State()))
    {
      hide ResetStream, Footprint, Ring, Views, Separate;
      ResetStreams(streams);
      clockDiscont := true;
    }

    /** clock_process_scale_event */
    method ProcessScaleEvent(newScale: Rational)
      requires Valid()
      modifies this, Footprint(streams)
      ensures Valid() && streams == old(streams)
      ensures State() == Process(old(State()), ScaleEvent(newScale)).0
      ensures commands == old(commands) + Process(old(State()), ScaleEvent(newScale)).1
    {
      hide Rebased, Footprint, Ring, Views, Separate, RationalEqual;
      if newScale.num == 0 {
        scale := newScale;
        SetClockScale(newScale);
      } else if !RationalEqual(scale, newScale) && newScale.num == newScale.den {
        scale := newScale;
        pendingScale := true;
        ResetClocks();
      }
    }

    /** The frame rate parameter of the control port. */
    method SetFrameRate(rate: Rational, rateScale: nat)
      requires Valid()
      modifies this`frameRate, this`frameRateScale, this`frameDuration, this`commands
      ensures Valid() && State() == Process(old(State()), FrameRate(rate, rateScale)).0
      ensures commands == old(commands) + Process(old(State()), FrameRate(rate, rateScale)).1
    {
      hide Views, View, Footprint, Separate, Div;
      frameRate, frameRateScale := rate, rateScale;
      if rate.num == 0 {
        Stop();
        return;
      }
      frameDuration := Div(rate.den * 1000000, rate.num);
    }

    /** clock_process_latency_event */
    method ProcessLatencyEvent(newLatency: Latency)
      requires Valid()
      modifies this, Footprint(streams)
      ensures Valid() && streams == old(streams)
      ensures State() == Process(old(State()), LatencyEvent(newLatency)).0
      ensures commands == old(commands) + Process(old(State()), LatencyEvent(newLatency)).1
    {
      hide Rebased, Footprint, Ring, Views, Separate;
      latency := newLatency;
      ResetClocks();
    }

    /** The first data on a port creates its stream. */
    method EnsureStream(port: nat)
      requires Valid() && port < |streams| && CanStream(State(), port)
      modifies this`streams
      ensures Valid() && |streams| == |old(streams)| && streams[port] != null
      ensures fresh(Footprint(streams) - old(Footprint(streams)))
      ensures State() == WithStream(old(State()), port)
    {
      hide Ring, Footprint, Separate, Views, View, Stream.State, Stream.Valid;
      assert View(streams[port]) == Views(streams)[port] by { PortView(streams, port); }
      if streams[port] == null {
        NullView(streams[port]);
        var filterLength := Div(frameRate.num * 2, frameRate.den) % 0x1_0000_0000;
        streams := AddStream(streams, port, filterLength);
      } else {
        PortView(streams, port);
      }
    }

    /** Update the stream of a port with new timing information. */
    method UpdateStream(port: nat, stc: int, pts: int) returns (event: StreamEvent)
      requires Valid() && port < |streams| && streams[port] != null && Inv(State())
      modifies streams[port].Repr()
      ensures Valid()
      ensures var r := Updated(old(View(streams[port])).value, stc, pts, discontThreshold);
        event == r.1 && State() == old(State()).(streams := old(Views(streams))[port := Some(r.0)])
    {
      hide Ring, Updated, Stream.State, Stream.Valid;
      ghost var before := Views(streams);
      InFootprint(streams, port);
      PortSettled(streams, port);
      event := UpdateOne(streams, port, stc, pts, discontThreshold);
      assert Views(streams) == before[port := View(streams[port])];
    }

    /** clock_process_input_buffer_info_event */
    method ProcessInputBufferInfo(port: nat, arrivalTime: int, timeStamp: int)
      requires Valid() && Inv(State()) && Acceptable(State(), Info(port, arrivalTime, timeStamp))
      requires TimelyEvent(Info(port, arrivalTime, timeStamp))
      modifies this, Footprint(streams)
      ensures Valid() && fresh(Footprint(streams) - old(Footprint(streams)))
      ensures State() == Process(old(State()), Info(port, arrivalTime, timeStamp)).0
      ensures commands == old(commands) + Process(old(State()), Info(port, arrivalTime, timeStamp)).1
    {
      hide Updated, Adjusted, Rebased, StreamInv, Ring, Footprint, Separate, Views, View, Stream.State, Stream.Valid;
      ghost var c, e := State(), Info(port, arrivalTime, timeStamp);
      PortView(streams, port);
      if streams[port] == null && frameRate.den == 0 {
        Stop();
        return;
      }
      InfoArrives(c, e);
      EnsureStream(port);
      PortView(streams, port);
      var event := UpdateStream(port, arrivalTime, timeStamp);
      assert State() == Arrived(c, e);
      match event {
        case FrameComplete => AdjustClocks(arrivalTime);
        case Discont => ResetClocks();
        case Overrun => Stop();
        case NoEvent =>
        case Started =>
      }
    }
  }

  lemma PortView(streams: seq<Stream?>, port: nat)
    requires Separate(streams) && port < |streams|
    ensures streams[port] != null ==> streams[port].Valid() && streams[port].Repr() <= Footprint(streams)
    ensures View(streams[port]) == Views(streams)[port] && (streams[port] != null <==> Views(streams)[port].Some?)
  {
    if streams[port] != null {
      InFootprint(streams, port);
    }
  }

  lemma PortSettled(streams: seq<Stream?>, port: nat)
    requires Separate(streams) && port < |streams| && streams[port] != null
    requires StreamsOk(Views(streams)) && NoneStuck(Views(streams))
    ensures StreamInv(streams[port].State()) && Settled(streams[port].State())
  {
    hide StreamInv;
    assert Views(streams)[port] == Some(streams[port].State());
    assert !Stuck(Views(streams)[port]);
  }

  lemma AddedSeparate(streams: seq<Stream?>, port: nat, stream: Stream)
    requires Separate(streams) && port < |streams| && streams[port] == null && stream.Valid()
    requires stream.Repr() !! Footprint(streams)
    ensures Separate(streams[port := stream])
  {
    hide Ring, Stream.State;
    var grown := streams[port := stream];
    forall j | 0 <= j < |grown| && j != port && grown[j] != null
      ensures grown[j].Valid() && grown[j].Repr() !! stream.Repr()
    {
      InFootprint(streams, j);
    }
  }

  lemma AddedViews(streams: seq<Stream?>, port: nat, stream: Stream)
    requires port < |streams| && Separate(streams) && Separate(streams[port := stream]) && stream.Valid()
    ensures Views(streams[port := stream]) == Views(streams)[port := Some(stream.State())]
  {
    hide Ring, Stream.State, Stream.Valid, Footprint, Separate;
  }

  lemma OwnedAllocated(streams: seq<Stream?>)
    ensures forall o :: o in Footprint(streams) ==> allocated(o)
  {
  }

  /** Put a new stream on a port that has none. */
  method AddStream(streams: seq<Stream?>, port: nat, length: nat) returns (grown: seq<Stream?>)
    requires Separate(streams) && port < |streams| && streams[port] == null
    ensures |grown| == |streams| && grown[port] != null && Separate(grown)
    ensures fresh(Footprint(grown) - Footprint(streams))
    ensures Views(grown) == old(Views(streams))[port := Some(NewStream(length))]
  {
    hide Ring, Stream.State, Stream.Valid, Views, Separate, Footprint;
    ghost var before, owned := Views(streams), Footprint(streams);
    OwnedAllocated(streams);
    var stream := new Stream(length);
    assert owned == Footprint(streams);
    grown := streams[port := stream];
    FootprintGrows(streams, port, stream);
    AddedSeparate(streams, port, stream);
    AddedViews(streams, port, stream);
  }

  lemma NullView(s: Stream?)
    requires s == null
    ensures View(s) == None
  {
  }

  lemma InfoArrives(c: ClockState, e: Event)
    requires Inv(c) && Acceptable(c, e) && TimelyEvent(e) && e.Info? && CanStream(c, e.port)
    ensures Inv(WithStream(c, e.port)) && SteadyInv(Arrived(c, e)) && Arrived(c, e).(streams := c.streams) == c
  {
    ArrivedKeeps(c, e);
    NewStreamKeeps(if c.frameRate.den != 0 then FilterLength(c.frameRate) else 0);
  }

  lemma FootprintGrows(streams: seq<Stream?>, port: nat, s: Stream)
    requires port < |streams| && streams[port] == null
    ensures Footprint(streams[port := s]) == Footprint(streams) + s.Repr()
  {
    var grown := streams[port := s];
    forall o | o in Footprint(streams) ensures o in Footprint(grown) {
      var i :| 0 <= i < |streams| && streams[i] != null && o in streams[i].Repr();
      assert grown[i] == streams[i];
    }
    forall o | o in s.Repr() ensures o in Footprint(grown) {
      assert grown[port] == s;
    }
  }

  lemma RestartedKeepsScale(c: ClockState, stc: int, min: StreamState)
    ensures Restarted(c, stc, min).0.scale == c.scale && Restarted(c, stc, min).0.pendingScale == c.pendingScale
    ensures Restarted(c, stc, min).1 != [Fault]
  {
  }

  lemma SlewedKeepsScale(c: ClockState, stc: int, min: StreamState, max: StreamState)
    requires min.avg.length != 0
    ensures Slewed(c, stc, min, max).0.scale == c.scale && Slewed(c, stc, min, max).0.pendingScale == c.pendingScale
    ensures Slewed(c, stc, min, max).1 == [Fault] <==> c.latency.attackPeriod == 0
  {
  }
}
