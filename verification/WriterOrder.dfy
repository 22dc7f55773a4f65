/**
  What the order of the container writer means on the fields of the packets (container_reader.c:492-528):
  a packet counts by its decoding time, and by its presentation time only where that is unknown. Among
  equals the ports take turns, and after a reported failure nothing is written any more.
 */
module WriterOrder {
  import opened ContainerWriter
  import opened Mmal

  // ----- the choice of a port -----

  /** `h` may go before `g`, on their time stamps. */
  predicate MayPrecede(h: Packet, g: Packet) {
    && (h.dts != TIME_UNKNOWN && g.dts != TIME_UNKNOWN ==> h.dts <= g.dts)
    && (h.dts != TIME_UNKNOWN && g.dts == TIME_UNKNOWN ==> h.dts <= g.pts)
    && (h.dts == TIME_UNKNOWN && g.dts != TIME_UNKNOWN ==> h.pts <= g.dts)
    && (h.dts == TIME_UNKNOWN && g.dts == TIME_UNKNOWN ==> h.pts <= g.pts)
  }

  lemma EarlierMayPrecede(h: Packet, g: Packet)
    ensures Timestamp(h) <= Timestamp(g) <==> MayPrecede(h, g)
  {
  }

  /** The chosen head may go before the head of every ready port. */
  lemma ChosenPrecedes(ports: seq<Port>, start: nat, p: nat)
    requires start < |ports| && p < |ports| && Ready(ports[p])
    ensures
      var chosen := Scan(ports, start, |ports|).port;
      && 0 <= chosen < |ports| && Ready(ports[chosen])
      && MayPrecede(ports[chosen].queue[0], ports[p].queue[0])
  {
    hide Scan, Timestamp;
    FullScan(ports, start);
    EarlierMayPrecede(ports[Scan(ports, start, |ports|).port].queue[0], ports[p].queue[0]);
  }

  /** The port before `port`, going round. */
  function Before(port: nat, n: nat): nat
    requires port < n
  {
    if port == 0 then n - 1 else port - 1
  }

  /** While every port has a buffer and all heads have the same decoding time, the ports take turns: each
      action serves the port before the one served last. */
  lemma EqualsTakeTurns(s: WriterState, outcome: Outcome, time: int)
    requires s.lastUsed < |s.ports| && !s.error && !FrameOpen(s) && time != TIME_UNKNOWN
    requires forall p :: 0 <= p < |s.ports| ==> Ready(s.ports[p]) && s.ports[p].queue[0].dts == time
    ensures
      var t, from := Process(s, outcome), Before(s.lastUsed, |s.ports|);
      && t.lastUsed == from && |t.handed| == |s.handed| + 1
      && t.handed[|s.handed|].port == from && t.handed[|s.handed|].packet == s.ports[from].queue[0]
  {
    hide Scan;
    var n := |s.ports|;
    var pick := Scan(s.ports, s.lastUsed, n);
    ScanFindsEarliest(s.ports, s.lastUsed, n);
    assert Ready(s.ports[Visit(s.lastUsed, 0, n)]) && Ready(s.ports[Visit(s.lastUsed, n - 1, n)]);
    var k :| 0 <= k < n && pick.port == Visit(s.lastUsed, k, n)
      && EarliestAt(s.ports, s.lastUsed, n, k, pick.timestamp);
  }

  // ----- the order of everything handed over -----

  /** A run of sends and actions in which every buffer ends a frame and has a known decoding time, or none
      has one, and every enabled port has a buffer whenever an action runs. */
  ghost predicate Orderly(s: WriterState, known: bool, es: seq<Event>, t: WriterState)
    decreases |es|
  {
    if es == [] then s == t
    else
      && Possible(s, es[0]) && Orderly(Next(s, es[0]), known, es[1..], t)
      && match es[0]
         case Send(_, packet) => packet.frameEnd && Stamped(packet, known)
         case Action(_) => forall p :: 0 <= p < |s.ports| && s.ports[p].enabled ==> s.ports[p].queue != []
         case _ => false
  }

  predicate Stamped(p: Packet, known: bool) { known <==> p.dts != TIME_UNKNOWN }

  /** The decoding time, or the presentation time. */
  function Time(p: Packet, decoding: bool): int { if decoding then p.dts else p.pts }

  /** Packets in time order, none before `top`. */
  ghost predicate PortInTime(ps: seq<Packet>, decoding: bool, top: int) {
    && (forall i, j :: 0 <= i < j < |ps| ==> Time(ps[i], decoding) <= Time(ps[j], decoding))
    && (forall i :: 0 <= i < |ps| ==> top <= Time(ps[i], decoding))
  }

  /** Each port has been sent packets in time order, all at or after its entry of `top`. */
  ghost predicate SentInTime(es: seq<Event>, known: bool, top: seq<int>) {
    forall port: nat :: port < |top| ==> PortInTime(SentTo(es, port), known, top[port])
  }

  lemma RestInTime(es: seq<Event>, known: bool, top: seq<int>)
    requires es != [] && SentInTime(es, known, top)
    ensures
      var e := es[0];
      if e.Send? && e.port < |top| then
        top[e.port] <= Time(e.packet, known) && SentInTime(es[1..], known, top[e.port := Time(e.packet, known)])
      else SentInTime(es[1..], known, top)
  {
    var e := es[0];
    hide Time, SentTo;
    if e.Send? && e.port < |top| {
      var now := top[e.port := Time(e.packet, known)];
      SentHere(es, e.port);
      FirstInTime(e.packet, SentTo(es[1..], e.port), known, top[e.port]);
      forall port: nat | port < |now|
        ensures PortInTime(SentTo(es[1..], port), known, now[port])
      {
        if port != e.port { SentElsewhere(es, port); }
      }
    } else {
      forall port: nat | port < |top|
        ensures PortInTime(SentTo(es[1..], port), known, top[port])
      {
        SentElsewhere(es, port);
      }
    }
  }

  lemma FirstInTime(p: Packet, rest: seq<Packet>, known: bool, top: int)
    requires PortInTime([p] + rest, known, top)
    ensures top <= Time(p, known) && PortInTime(rest, known, Time(p, known))
  {
    var all := [p] + rest;
    assert all[0] == p;
    assert forall i :: 0 <= i < |rest| ==> all[i + 1] == rest[i];
  }

  lemma SentHere(es: seq<Event>, port: nat)
    requires es != [] && es[0].Send? && es[0].port == port
    ensures SentTo(es, port) == [es[0].packet] + SentTo(es[1..], port)
  {
  }

  lemma SentElsewhere(es: seq<Event>, port: nat)
    requires es != [] && !(es[0].Send? && es[0].port == port)
    ensures SentTo(es, port) == SentTo(es[1..], port)
  {
    assert [] + SentTo(es[1..], port) == SentTo(es[1..], port);
  }

  /** On the fields, such a run is disciplined. */
  lemma {:induction false} OrderlyIsDisciplined(
      s: WriterState, known: bool, top: seq<int>, es: seq<Event>, t: WriterState)
    requires |top| == |s.ports| && s.lastUsed < |s.ports|
    requires Orderly(s, known, es, t) && SentInTime(es, known, top)
    ensures Disciplined(s, top, es, t)
    decreases |es|
  {
    hide Process, SentInTime;
    if es != [] {
      RestInTime(es, known, top);
      match es[0] {
        case Send(port, packet) =>
          OrderlyIsDisciplined(Next(s, es[0]), known, top[port := Timestamp(packet)], es[1..], t);
        case Action(outcome) =>
          ProcessFrame(s, outcome);
          OrderlyIsDisciplined(Process(s, outcome), known, top, es[1..], t);
      }
    }
  }

  ghost predicate AllStamped(s: WriterState, known: bool) {
    && (forall p, i :: 0 <= p < |s.ports| && 0 <= i < |s.ports[p].queue| ==> Stamped(s.ports[p].queue[i], known))
    && (forall i :: 0 <= i < |s.handed| ==> Stamped(s.handed[i].packet, known))
  }

  lemma StepStamped(s: WriterState, known: bool, e: Event)
    requires AllStamped(s, known) && Possible(s, e) && (e.Send? ==> Stamped(e.packet, known))
    ensures AllStamped(Next(s, e), known)
  {
    if e.Action? { ProcessFrame(s, e.outcome); }
  }

  lemma {:induction false} RunStamped(s: WriterState, known: bool, es: seq<Event>, t: WriterState)
    requires AllStamped(s, known) && Orderly(s, known, es, t)
    ensures AllStamped(t, known)
    decreases |es|
  {
    hide AllStamped, Next, Possible, Stamped;
    if es != [] {
      StepStamped(s, known, es[0]);
      RunStamped(Next(s, es[0]), known, es[1..], t);
    }
  }

  lemma InitiallyStamped(s: WriterState, known: bool)
    requires s.handed == [] && forall p :: 0 <= p < |s.ports| ==> s.ports[p].queue == []
    ensures AllStamped(s, known)
  {
  }

  /** A merge by decoding time: from an empty writer, if each port is sent packets in the order of their
      decoding times, everything handed over is in that order, whatever the presentation times. Without any
      decoding times the same holds of the presentation times. */
  lemma MergeByTime(s: WriterState, known: bool, top: seq<int>, es: seq<Event>, t: WriterState)
    requires s.lastUsed < |s.ports| == |top| && s.handed == [] && s.writingFrame == 0
    requires forall p :: 0 <= p < |s.ports| ==> s.ports[p].queue == []
    requires Orderly(s, known, es, t) && SentInTime(es, known, top)
    ensures forall i, j :: 0 <= i < j < |t.handed| ==>
      if known then t.handed[i].packet.dts <= t.handed[j].packet.dts
      else t.handed[i].packet.pts <= t.handed[j].packet.pts
  {
    hide Orderly, SentInTime, Disciplined, MergeInv;
    EmptyWriter(s, top);
    OrderlyIsDisciplined(s, known, top, es, t);
    MergeIsAscending(s, top, es, t);
    InitiallyStamped(s, known);
    RunStamped(s, known, es, t);
  }

  // ----- failures and ends of stream -----

  /** A reported failure is the last thing that happens to the output. */
  lemma {:induction false} NothingAfterFailure(s: WriterState, es: seq<Event>, t: WriterState)
    requires Runs(s, es, t) && s.error
    ensures t.error && t.handed == s.handed && t.eosEvents == s.eosEvents
    decreases |es|
  {
    if es != [] {
      NothingAfterFailure(Next(s, es[0]), es[1..], t);
    }
  }

  /** The failure flag is set exactly by a packet whose writing failed and whose failure was reported. */
  lemma FailureIff(s: WriterState, outcome: Outcome)
    requires s.lastUsed < |s.ports| && !s.error
    ensures Process(s, outcome).error <==>
      |Process(s, outcome).handed| > |s.handed| && outcome == WriteFailed(true)
  {
    ProcessFrame(s, outcome);
  }

  /** The ports of the packets that end a stream, in the order they were handed over. */
  function Ends(handed: seq<Handed>): seq<nat> {
    if handed == [] then []
    else
      var last := handed[|handed| - 1];
      Ends(handed[..|handed| - 1]) + if last.packet.eos then [last.port] else []
  }

  /** While every packet is written and every event is sent, an end of stream is announced for each packet
      that carries one, once and in order. */
  lemma {:induction false} EndsAreAnnounced(s: WriterState, es: seq<Event>, t: WriterState)
    requires Runs(s, es, t) && s.eosEvents == Ends(s.handed)
    requires forall i :: 0 <= i < |es| && es[i].Action? ==> es[i].outcome == Written(true)
    ensures t.eosEvents == Ends(t.handed)
    decreases |es|
  {
    hide Next, Ends, Possible;
    if es != [] {
      EndStep(s, es[0]);
      EndsAreAnnounced(Next(s, es[0]), es[1..], t);
    }
  }

  lemma EndStep(s: WriterState, e: Event)
    requires Possible(s, e) && s.eosEvents == Ends(s.handed) && (e.Action? ==> e.outcome == Written(true))
    ensures Next(s, e).eosEvents == Ends(Next(s, e).handed)
  {
    if e.Action? {
      ProcessFrame(s, e.outcome);
      hide Process;
      var r := Next(s, e);
      if r.handed != s.handed {
        assert r.handed[..|s.handed|] == s.handed;
      }
    }
  }
}
