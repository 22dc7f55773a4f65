/**
  The container writer (container_reader.c:475-605): one action picks an input port, takes its
  oldest buffer and hands it to the container. Ports are served by earliest time stamp, except
  that a frame once begun is finished first.
 */
module ContainerWriter {
  import opened Mmal

  datatype Packet = Packet(payload: seq<int>, pts: int, dts: int, keyframe: bool, frameStart: bool, frameEnd: bool,
      eos: bool)

  datatype Port = Port(enabled: bool, framed: bool, queue: seq<Packet>)

  /** A packet handed to the container, with its port and whether that port was framed. */
  datatype Handed = Handed(port: nat, packet: Packet, framed: bool)

  /** `lastUsed` is port_last_used; `writingFrame` is 0 or the index of a port plus one. */
  datatype WriterState = WriterState(
    ports: seq<Port>, lastUsed: nat, writingFrame: nat, error: bool, handed: seq<Handed>, eosEvents: seq<nat>)

  /** How the calls into the container and the control port go. */
  datatype Outcome = Written(eosEventSent: bool) | WriteFailed(errorEventSent: bool)

  function Timestamp(p: Packet): int { if p.dts == TIME_UNKNOWN then p.pts else p.dts }

  predicate Ready(p: Port) { p.enabled && p.queue != [] }

  // ----- the selection -----

  /** The choice so far: a port, or -1, and the time stamp of its head. */
  datatype Pick = Pick(port: int, timestamp: int)

  /** The index visited in turn `i` of a scan that starts at `start` and wraps. */
  function Visit(start: nat, i: nat, n: nat): int {
    if start + i < n then start + i else start + i - n
  }

  function Weigh(pick: Pick, ports: seq<Port>, index: int): Pick
    requires 0 <= index < |ports|
  {
    if !Ready(ports[index]) then pick
    else
      var current := Timestamp(ports[index].queue[0]);
      var timestamp := if pick.port == -1 then current else pick.timestamp;
      if current <= timestamp then Pick(index, current) else Pick(pick.port, timestamp)
  }

  function Scan(ports: seq<Port>, start: nat, i: nat): Pick
    requires start < |ports| && i <= |ports|
  {
    if i == 0 then Pick(-1, 0) else Weigh(Scan(ports, start, i - 1), ports, Visit(start, i - 1, |ports|))
  }

  /** What the scan finds among its first `i` turns: nothing exactly when no visited port is ready;
      otherwise a ready port whose head is earliest, the last such port in scan order. */
  ghost predicate Earliest(ports: seq<Port>, start: nat, i: nat, pick: Pick)
    requires start < |ports| && i <= |ports|
  {
    && (pick.port == -1 <==> forall j :: 0 <= j < i ==> !Ready(ports[Visit(start, j, |ports|)]))
    && (pick.port != -1 ==>
        exists k :: 0 <= k < i && pick.port == Visit(start, k, |ports|)
          && EarliestAt(ports, start, i, k, pick.timestamp))
  }

  ghost predicate EarliestAt(ports: seq<Port>, start: nat, i: nat, k: nat, timestamp: int)
    requires start < |ports| && k < i <= |ports|
  {
    var n := |ports|;
    && Ready(ports[Visit(start, k, n)]) && Timestamp(ports[Visit(start, k, n)].queue[0]) == timestamp
    && (forall j :: 0 <= j < i && Ready(ports[Visit(start, j, n)]) ==>
          timestamp <= Timestamp(ports[Visit(start, j, n)].queue[0]))
    && (forall j :: k < j < i && Ready(ports[Visit(start, j, n)]) ==>
          timestamp < Timestamp(ports[Visit(start, j, n)].queue[0]))
  }

  /** A witness found earlier stays one, or is beaten by the port of the next turn. */
  lemma WeighKeepsEarliest(ports: seq<Port>, start: nat, i: nat, k: nat, pick: Pick)
    requires start < |ports| && k < i < |ports| && pick.port != -1
    requires pick.port == Visit(start, k, |ports|) && EarliestAt(ports, start, i, k, pick.timestamp)
    ensures
      var next := Weigh(pick, ports, Visit(start, i, |ports|));
      || (next == pick && EarliestAt(ports, start, i + 1, k, pick.timestamp))
      || (next.port == Visit(start, i, |ports|) && EarliestAt(ports, start, i + 1, i, next.timestamp))
  {
  }

  lemma FoundIsReady(ports: seq<Port>, start: nat, i: nat, k: nat, timestamp: int)
    requires start < |ports| && k < i <= |ports| && EarliestAt(ports, start, i, k, timestamp)
    ensures Ready(ports[Visit(start, k, |ports|)])
  {
  }

  /** Nothing was ready so far. */
  lemma WeighFirst(ports: seq<Port>, start: nat, i: nat, pick: Pick)
    requires start < |ports| && i < |ports| && pick.port == -1 && Earliest(ports, start, i, pick)
    ensures Earliest(ports, start, i + 1, Weigh(pick, ports, Visit(start, i, |ports|)))
  {
    var index := Visit(start, i, |ports|);
    if Ready(ports[index]) {
      assert EarliestAt(ports, start, i + 1, i, Weigh(pick, ports, index).timestamp);
    }
  }

  /** Something was ready. */
  lemma WeighNext(ports: seq<Port>, start: nat, i: nat, pick: Pick)
    requires start < |ports| && i < |ports| && pick.port >= 0 && Earliest(ports, start, i, pick)
    ensures Earliest(ports, start, i + 1, Weigh(pick, ports, Visit(start, i, |ports|)))
  {
    hide EarliestAt;
    var k :| 0 <= k < i && pick.port == Visit(start, k, |ports|) && EarliestAt(ports, start, i, k, pick.timestamp);
    WeighKeepsEarliest(ports, start, i, k, pick);
    FoundIsReady(ports, start, i, k, pick.timestamp);
    hide Weigh;
  }

  lemma WeighInRange(ports: seq<Port>, start: nat, i: nat, pick: Pick)
    requires start < |ports| && i < |ports| && -1 <= pick.port < |ports|
    ensures 0 <= Visit(start, i, |ports|) < |ports|
    ensures -1 <= Weigh(pick, ports, Visit(start, i, |ports|)).port < |ports|
  {
  }

  lemma NothingVisited(ports: seq<Port>, start: nat)
    requires start < |ports|
    ensures Earliest(ports, start, 0, Pick(-1, 0))
  {
  }

  lemma {:induction false} ScanFindsEarliest(ports: seq<Port>, start: nat, i: nat)
    requires start < |ports| && i <= |ports|
    ensures Earliest(ports, start, i, Scan(ports, start, i))
    ensures -1 <= Scan(ports, start, i).port < |ports|
  {
    hide Earliest, Visit, Weigh;
    if i == 0 {
      NothingVisited(ports, start);
    } else {
      ScanFindsEarliest(ports, start, i - 1);
      var pick := Scan(ports, start, i - 1);
      WeighInRange(ports, start, i - 1, pick);
      if pick.port == -1 { WeighFirst(ports, start, i - 1, pick); } else { WeighNext(ports, start, i - 1, pick); }
    }
  }

  /** The turn in which a port is visited. */
  function Turn(start: nat, n: nat, index: nat): (j: nat)
    requires start < n && index < n
    ensures j < n && Visit(start, j, n) == index
  {
    if index >= start then index - start else index + n - start
  }

  /** The chosen head is no later than the head of any ready port; none is chosen only if no port
      is ready. */
  ghost predicate EarliestOfAll(ports: seq<Port>, pick: Pick) {
    && -1 <= pick.port < |ports|
    && (pick.port == -1 <==> forall p :: 0 <= p < |ports| ==> !Ready(ports[p]))
    && (pick.port != -1 ==> Ready(ports[pick.port]) && Timestamp(ports[pick.port].queue[0]) == pick.timestamp)
    && (pick.port != -1 ==> forall p :: 0 <= p < |ports| && Ready(ports[p]) ==>
      pick.timestamp <= Timestamp(ports[p].queue[0]))
  }

  lemma FullScan(ports: seq<Port>, start: nat)
    requires start < |ports|
    ensures EarliestOfAll(ports, Scan(ports, start, |ports|))
  {
    var n := |ports|;
    var pick := Scan(ports, start, n);
    ScanFindsEarliest(ports, start, n);
    if pick.port == -1 {
      forall p | 0 <= p < n
        ensures !Ready(ports[p])
      {
        assert Visit(start, Turn(start, n, p), n) == p;
      }
    } else {
      var k :| 0 <= k < n && pick.port == Visit(start, k, n) && EarliestAt(ports, start, n, k, pick.timestamp);
      forall p | 0 <= p < n && Ready(ports[p])
        ensures pick.timestamp <= Timestamp(ports[p].queue[0])
      {
        assert Visit(start, Turn(start, n, p), n) == p;
      }
    }
  }

  // ----- one action -----

  predicate FrameOpen(s: WriterState) {
    0 < s.writingFrame <= |s.ports| && s.ports[s.writingFrame - 1].enabled
  }

  /** The port to write from, or -1: an open frame goes first. */
  function Target(s: WriterState): int
    requires s.lastUsed < |s.ports|
  {
    if FrameOpen(s) then s.writingFrame - 1 else Scan(s.ports, s.lastUsed, |s.ports|).port
  }

  function AfterScan(s: WriterState): WriterState
    requires s.lastUsed < |s.ports|
  {
    var pick := Scan(s.ports, s.lastUsed, |s.ports|);
    if pick.port >= 0 then s.(lastUsed := pick.port) else s
  }

  /** Take the head of `port` and hand it to the container. */
  function HandOver(s: WriterState, port: nat, outcome: Outcome): WriterState
    requires port < |s.ports| && s.ports[port].queue != []
  {
    var p := s.ports[port];
    var packet := p.queue[0];
    s.(ports := s.ports[port := p.(queue := p.queue[1..])],
       writingFrame := if packet.frameEnd || !p.framed then 0 else port + 1,
       handed := s.handed + [Handed(port, packet, p.framed)],
       error := outcome.WriteFailed? && outcome.errorEventSent,
       eosEvents := s.eosEvents + if outcome.Written? && packet.eos && outcome.eosEventSent then [port] else [])
  }

  function Process(s: WriterState, outcome: Outcome): WriterState
    requires s.lastUsed < |s.ports|
  {
    if s.error then s
    else
      var port := Target(s);
      if 0 <= port < |s.ports| && s.ports[port].queue != [] then HandOver(AfterScan(s), port, outcome) else AfterScan(s)
  }

  // ----- events and runs -----

  datatype Event =
    | Send(port: nat, packet: Packet)
    | Action(outcome: Outcome)
    | Flush(port: nat)
    | Enable(port: nat)
    | Disable(port: nat)
    | SetFormat(port: nat, framed: bool)

  predicate Possible(s: WriterState, e: Event) {
    match e
    case Action(_) => s.lastUsed < |s.ports|
    case Send(port, _) => port < |s.ports|
    case Flush(port) => port < |s.ports|
    case Enable(port) => port < |s.ports|
    case Disable(port) => port < |s.ports|
    case SetFormat(port, _) => port < |s.ports|
  }

  function Next(s: WriterState, e: Event): WriterState
    requires Possible(s, e)
  {
    match e
    case Send(port, packet) => s.(ports := s.ports[port := s.ports[port].(queue := s.ports[port].queue + [packet])])
    case Action(outcome) => Process(s, outcome)
    case Flush(port) => s.(ports := s.ports[port := s.ports[port].(queue := [])])
    case Enable(port) => s.(ports := s.ports[port := s.ports[port].(enabled := true)])
    case Disable(port) => s.(ports := s.ports[port := s.ports[port].(queue := [], enabled := false)])
    case SetFormat(port, framed) => s.(ports := s.ports[port := s.ports[port].(framed := framed)])
  }

  ghost predicate Runs(s: WriterState, es: seq<Event>, t: WriterState)
    decreases |es|
  {
    if es == [] then s == t else Possible(s, es[0]) && Runs(Next(s, es[0]), es[1..], t)
  }

  lemma ProcessFrame(s: WriterState, outcome: Outcome)
    requires s.lastUsed < |s.ports|
    ensures
      var t := Process(s, outcome);
      && |t.ports| == |s.ports| && t.lastUsed < |t.ports|
      && (forall p :: 0 <= p < |s.ports| ==>
        t.ports[p].enabled == s.ports[p].enabled && t.ports[p].framed == s.ports[p].framed)
      && (|| (t.handed == s.handed && t.ports == s.ports && t.writingFrame == s.writingFrame)
          || (&& 0 <= Target(s) < |s.ports| && s.ports[Target(s)].queue != []
              && t == HandOver(AfterScan(s), Target(s), outcome)))
  {
    FullScan(s.ports, s.lastUsed);
  }

  // ----- every port keeps its order -----

  /** The packets of one port among those handed over. */
  function HandedFrom(handed: seq<Handed>, port: nat): (r: seq<Packet>) {
    if handed == [] then []
    else
      var last := handed[|handed| - 1];
      HandedFrom(handed[..|handed| - 1], port) + if last.port == port then [last.packet] else []
  }

  /** The packets sent to one port. */
  function SentTo(es: seq<Event>, port: nat): seq<Packet>
    decreases |es|
  {
    if es == [] then []
    else (if es[0].Send? && es[0].port == port then [es[0].packet] else []) + SentTo(es[1..], port)
  }

  predicate Discards(e: Event, port: nat) {
    (e.Flush? || e.Disable?) && e.port == port
  }

  /** What a port has handed over, followed by what it still holds. */
  function Stream(s: WriterState, port: nat): seq<Packet>
    requires port < |s.ports|
  {
    HandedFrom(s.handed, port) + s.ports[port].queue
  }

  lemma HandOverKeepsStream(s: WriterState, from: nat, outcome: Outcome, port: nat)
    requires from < |s.ports| && s.ports[from].queue != [] && port < |s.ports|
    ensures Stream(HandOver(s, from, outcome), port) == Stream(s, port)
  {
    var t := HandOver(s, from, outcome);
    assert t.handed[..|t.handed| - 1] == s.handed;
    if port == from {
      var q := s.ports[port].queue;
      assert (HandedFrom(s.handed, port) + [q[0]]) + q[1..] == HandedFrom(s.handed, port) + q;
    }
  }

  /** Over any run in which a port is not flushed or disabled, its packets are handed over in the
      order sent, none lost, none twice: handed over plus queued is exactly what was sent. */
  lemma {:induction false} PortOrder(s: WriterState, es: seq<Event>, t: WriterState, port: nat)
    requires Runs(s, es, t) && port < |s.ports|
    requires forall i :: 0 <= i < |es| ==> !Discards(es[i], port)
    ensures |t.ports| == |s.ports| && Stream(t, port) == Stream(s, port) + SentTo(es, port)
    decreases |es|
  {
    if es == [] {
      assert Stream(s, port) + [] == Stream(s, port);
    } else {
      var r := Next(s, es[0]);
      EventKeepsStream(s, es[0], port);
      PortOrder(r, es[1..], t, port);
      assert Stream(s, port) + (SentTo([es[0]], port) + SentTo(es[1..], port))
          == (Stream(s, port) + SentTo([es[0]], port)) + SentTo(es[1..], port);
      assert SentTo(es, port) == SentTo([es[0]], port) + SentTo(es[1..], port);
    }
  }

  lemma EventKeepsStream(s: WriterState, e: Event, port: nat)
    requires Possible(s, e) && port < |s.ports| && !Discards(e, port)
    ensures |Next(s, e).ports| == |s.ports| && Stream(Next(s, e), port) == Stream(s, port) + SentTo([e], port)
  {
    assert [e][1..] == [];
    match e {
      case Send(p, packet) =>
        if p == port {
          assert HandedFrom(s.handed, port) + (s.ports[port].queue + [packet])
              == (HandedFrom(s.handed, port) + s.ports[port].queue) + [packet];
        }
      case Action(outcome) =>
        ProcessFrame(s, outcome);
        if Process(s, outcome).handed != s.handed {
          HandOverKeepsStream(AfterScan(s), Target(s), outcome, port);
        }
      case _ =>
    }
  }

  // ----- frames are not split -----

  /** `writingFrame` names the port of the last packet handed over exactly when that packet leaves a
      frame of a framed port open. */
  ghost predicate FrameInv(s: WriterState) {
    if s.handed == [] then s.writingFrame == 0
    else
      var last := s.handed[|s.handed| - 1];
      s.writingFrame == if last.packet.frameEnd || !last.framed then 0 else last.port + 1
  }

  lemma {:induction false} FrameInvKept(s: WriterState, es: seq<Event>, t: WriterState)
    requires FrameInv(s) && Runs(s, es, t)
    ensures FrameInv(t)
    decreases |es|
  {
    if es != [] {
      if es[0].Action? { ProcessFrame(s, es[0].outcome); }
      FrameInvKept(Next(s, es[0]), es[1..], t);
    }
  }

  /** After a packet of `port` that leaves its frame open comes another packet of `port`. */
  ghost predicate Unsplit(handed: seq<Handed>, port: nat) {
    forall i :: 0 <= i < |handed| - 1 && handed[i].port == port && handed[i].framed && !handed[i].packet.frameEnd
      ==> handed[i + 1].port == port
  }

  /** Over any run in which a port stays enabled, its frames are handed over without packets of
      other ports in between. */
  lemma {:induction false} FramesAreAtomic(s: WriterState, es: seq<Event>, t: WriterState, port: nat)
    requires Runs(s, es, t) && port < |s.ports| && s.ports[port].enabled
    requires forall i :: 0 <= i < |es| ==> es[i] != Disable(port)
    requires FrameInv(s) && Unsplit(s.handed, port)
    ensures Unsplit(t.handed, port)
    decreases |es|
  {
    if es != [] {
      var r := Next(s, es[0]);
      if es[0].Action? { ProcessFrame(s, es[0].outcome); }
      FrameInvKept(s, [es[0]], r);
      FramesAreAtomic(r, es[1..], t, port);
    }
  }

  // ----- a k-way merge -----

  ghost predicate Ascending(ps: seq<Packet>) {
    forall i, j :: 0 <= i < j < |ps| ==> Timestamp(ps[i]) <= Timestamp(ps[j])
  }

  ghost predicate AscendingHanded(hs: seq<Handed>) {
    forall i, j :: 0 <= i < j < |hs| ==> Timestamp(hs[i].packet) <= Timestamp(hs[j].packet)
  }

  /** `top` gives for each port a bound on the time stamps sent so far. Queues are ascending, every
      buffer ends a frame, and nothing queued on an enabled port is earlier than what was handed over. */
  ghost predicate MergeInv(s: WriterState, top: seq<int>) {
    && |top| == |s.ports| && s.lastUsed < |s.ports| && s.writingFrame == 0
    && (forall p :: 0 <= p < |s.ports| ==> PortAscends(s.ports[p], top[p]))
    && (forall p :: 0 <= p < |s.ports| && s.ports[p].enabled ==> NotBefore(s.handed, s.ports[p], top[p]))
    && AscendingHanded(s.handed)
  }

  ghost predicate PortAscends(p: Port, top: int) {
    Ascending(p.queue) && (forall i :: 0 <= i < |p.queue| ==> Timestamp(p.queue[i]) <= top && p.queue[i].frameEnd)
  }

  ghost predicate NotBefore(handed: seq<Handed>, p: Port, top: int) {
    forall i :: 0 <= i < |handed| ==>
      Timestamp(handed[i].packet) <= top && forall j :: 0 <= j < |p.queue| ==>
        Timestamp(handed[i].packet) <= Timestamp(p.queue[j])
  }

  /** A run of sends and actions in which time stamps do not decrease on any port, every buffer ends
      a frame, and every enabled port has a buffer whenever an action runs. */
  ghost predicate Disciplined(s: WriterState, top: seq<int>, es: seq<Event>, t: WriterState)
    requires |top| == |s.ports| && s.lastUsed < |s.ports|
    decreases |es|
  {
    if es == [] then s == t
    else match es[0]
      case Send(port, packet) =>
        port < |s.ports| && top[port] <= Timestamp(packet) && packet.frameEnd
        && Disciplined(Next(s, es[0]), top[port := Timestamp(packet)], es[1..], t)
      case Action(outcome) =>
        && (forall p :: 0 <= p < |s.ports| && s.ports[p].enabled ==> s.ports[p].queue != [])
        && (ProcessFrame(s, outcome); Disciplined(Process(s, outcome), top, es[1..], t))
      case _ => false
  }

  lemma SendKeepsMerge(s: WriterState, top: seq<int>, port: nat, packet: Packet)
    requires MergeInv(s, top) && port < |s.ports| && top[port] <= Timestamp(packet) && packet.frameEnd
    ensures MergeInv(Next(s, Send(port, packet)), top[port := Timestamp(packet)])
  {
  }

  lemma ActionKeepsMerge(s: WriterState, top: seq<int>, outcome: Outcome)
    requires MergeInv(s, top)
    requires forall p :: 0 <= p < |s.ports| && s.ports[p].enabled ==> s.ports[p].queue != []
    ensures MergeInv(Process(s, outcome), top)
  {
    ProcessFrame(s, outcome);
    FullScan(s.ports, s.lastUsed);
    var t := Process(s, outcome);
    var from := Target(s);
    if t.handed != s.handed {
      var head := s.ports[from].queue[0];
      assert s.ports[from].enabled && PortAscends(s.ports[from], top[from])
        && NotBefore(s.handed, s.ports[from], top[from]);
      forall p | 0 <= p < |t.ports| && t.ports[p].enabled
        ensures NotBefore(t.handed, t.ports[p], top[p])
      {
        assert NotBefore(s.handed, s.ports[p], top[p]) && PortAscends(s.ports[p], top[p]);
        assert Ready(s.ports[p]);
        assert Timestamp(head) <= Timestamp(s.ports[p].queue[0]) <= top[p];
      }
    }
  }

  /** The writer merges its ports: over any disciplined run, everything handed over is in
      ascending order of time stamps. */
  lemma {:induction false} MergeIsAscending(s: WriterState, top: seq<int>, es: seq<Event>, t: WriterState)
    requires MergeInv(s, top) && Disciplined(s, top, es, t)
    ensures AscendingHanded(t.handed)
    decreases |es|
  {
    hide Process, PortAscends, NotBefore, AscendingHanded, Scan;
    if es != [] {
      match es[0] {
        case Send(port, packet) =>
          SendKeepsMerge(s, top, port, packet);
          MergeIsAscending(Next(s, es[0]), top[port := Timestamp(packet)], es[1..], t);
        case Action(outcome) =>
          ProcessFrame(s, outcome);
          ActionKeepsMerge(s, top, outcome);
          MergeIsAscending(Process(s, outcome), top, es[1..], t);
      }
    }
  }

  /** A writer that has been sent nothing satisfies all the invariants. */
  lemma EmptyWriter(s: WriterState, top: seq<int>)
    requires s.lastUsed < |s.ports| == |top| && s.handed == [] && s.writingFrame == 0
    requires forall p :: 0 <= p < |s.ports| ==> s.ports[p].queue == []
    ensures MergeInv(s, top) && FrameInv(s) && forall p: nat :: Unsplit(s.handed, p)
    ensures forall p: nat :: p < |s.ports| ==> Stream(s, p) == []
  {
  }

  // ----- the component -----

  class Writer {
    const ports: array<Port>
    var portLastUsed: nat
    var portWritingFrame: nat
    var error: bool
    var handed: seq<Handed>
    var eosEvents: seq<nat>

    ghost predicate Valid()
      reads this, ports
    {
      portLastUsed < ports.Length
    }

    ghost function State(): WriterState
      reads this, ports
    {
      WriterState(ports[..], portLastUsed, portWritingFrame, error, handed, eosEvents)
    }

    constructor (num: nat)
      requires num > 0
      ensures Valid() && fresh(ports)
      ensures State() == WriterState(seq(num, _ => Port(false, false, [])), 0, 0, false, [], [])
    {
      ports := new Port[num](_ => Port(false, false, []));
      portLastUsed, portWritingFrame, error, handed, eosEvents := 0, 0, false, [], [];
    }

    /** The selection loop: look at the head of every enabled port by taking it and putting it back. */
    method SelectPort() returns (port: int)
      requires Valid()
      modifies this`portLastUsed, ports
      ensures Valid() && State() == AfterScan(old(State()))
      ensures port == Scan(old(ports[..]), old(portLastUsed), ports.Length).port
    {
      ghost var before, start := ports[..], portLastUsed;
      port := -1;
      var timestamp := 0;
      var i, index := 0, portLastUsed;
      while i < ports.Length
        invariant 0 <= i <= ports.Length && ports[..] == before
        invariant 0 <= index <= ports.Length && (i < ports.Length ==> Wrapped(index) == Visit(start, i, ports.Length))
        invariant Pick(port, if port == -1 then 0 else timestamp) == Scan(before, start, i)
        invariant portLastUsed == if port == -1 then start else port
        invariant portLastUsed < ports.Length
      {
        if index == ports.Length {
          index := 0;
        }
        if ports[index].enabled && ports[index].queue != [] {
          var buffer := ports[index].queue[0];
          ports[index] := ports[index].(queue := ports[index].queue[1..]);
          var timestampCurrent := buffer.dts;
          if timestampCurrent == TIME_UNKNOWN {
            timestampCurrent := buffer.pts;
          }
          if port == -1 {
            timestamp := timestampCurrent;
          }
          if timestampCurrent <= timestamp {
            port := index;
            timestamp := timestampCurrent;
            portLastUsed := index;
          }
          ports[index] := ports[index].(queue := [buffer] + ports[index].queue);
          assert ports[..] == before by {
            assert ports[index].queue == before[index].queue;
          }
        }
        i, index := i + 1, index + 1;
      }
    }

    ghost function Wrapped(index: int): int { if index == ports.Length then 0 else index }

    /** Take the oldest buffer of a port and hand it to the container. */
    method WritePacket(port: nat, outcome: Outcome)
      requires Valid() && port < ports.Length && ports[port].queue != [] && !error
      modifies this, ports
      ensures Valid() && State() == HandOver(old(State()), port, outcome)
    {
      var buffer := ports[port].queue[0];
      ports[port] := ports[port].(queue := ports[port].queue[1..]);
      portWritingFrame := port + 1;
      if buffer.frameEnd || !ports[port].framed {
        portWritingFrame := 0;
      }
      handed := handed + [Handed(port, buffer, ports[port].framed)];
      match outcome {
        case WriteFailed(errorEventSent) =>
          error := errorEventSent;
        case Written(eosEventSent) =>
          if buffer.eos && eosEventSent {
            eosEvents := eosEvents + [port];
          }
      }
    }

    /** writer_do_processing */
    method DoProcessing(outcome: Outcome)
      requires Valid()
      modifies this, ports
      ensures Valid() && State() == Process(old(State()), outcome)
    {
      hide Scan, HandOver;
      if error { return; }
      FullScan(ports[..], portLastUsed);
      var port := SelectPort();
      if portWritingFrame != 0 && portWritingFrame - 1 < ports.Length && ports[portWritingFrame - 1].enabled {
        port := portWritingFrame - 1;
      }
      if port == -1 { return; }
      if ports[port].queue == [] { return; }
      WritePacket(port, outcome);
    }

    /** container_port_send */
    method Send(port: nat, packet: Packet)
      requires Valid() && port < ports.Length
      modifies ports
      ensures Valid() && State() == Next(old(State()), Event.Send(port, packet))
    {
      ports[port] := ports[port].(queue := ports[port].queue + [packet]);
    }

    /** container_port_flush: every buffer goes back to the sender. */
    method Flush(port: nat) returns (returned: seq<Packet>)
      requires Valid() && port < ports.Length
      modifies ports
      ensures Valid() && State() == Next(old(State()), Event.Flush(port))
      ensures returned == old(ports[port].queue)
    {
      ghost var before := ports[..];
      returned := [];
      while ports[port].queue != []
        invariant returned + ports[port].queue == before[port].queue
        invariant ports[..] == before[port := before[port].(queue := ports[port].queue)]
        decreases |ports[port].queue|
      {
        returned := returned + [ports[port].queue[0]];
        ports[port] := ports[port].(queue := ports[port].queue[1..]);
      }
    }
  }
}
