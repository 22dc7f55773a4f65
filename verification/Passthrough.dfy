/**
  The passthrough component (passthrough.c:79-168): a buffer sent to the input port is copied into a
  buffer sent to the output port with the same index, and whichever comes first waits in a queue.
  The component's foreign calls are answered by the event: whether replicating the header succeeds,
  and whether the error event for a failure could be sent.
 */
module Passthrough {
  import CInt

  datatype Header = Header(id: int, length: nat, content: int)

  /** A matched pair, as its two headers are given back to their ports. */
  datatype Pair = Pair(input: Header, output: Header)

  datatype State = State(
    ins: seq<Header>, outs: seq<Header>, error: bool,
    done: seq<Pair>, flushedIns: seq<Header>, flushedOuts: seq<Header>)

  datatype Event =
    | SendIn(header: Header, replicates: bool, reports: bool)
    | SendOut(header: Header, replicates: bool, reports: bool)
    | FlushIn
    | FlushOut

  const EMPTY := State([], [], false, [], [], [])

  /** An input header with its payload consumed, and an output header that now refers to it. */
  function Consumed(input: Header): Header { input.(length := 0) }

  function Replica(output: Header, input: Header): Header { input.(id := output.id) }

  /** Replicate, or put both headers at the tail of their queues and report the failure. */
  function Match(s: State, input: Header, output: Header, replicates: bool, reports: bool): State {
    if replicates then s.(done := s.done + [Pair(Consumed(input), Replica(output, input))])
    else s.(ins := s.ins + [input], outs := s.outs + [output], error := reports || s.error)
  }

  function Step(s: State, e: Event): State {
    match e
    case SendIn(h, replicates, reports) =>
      if s.error || s.outs == [] then s.(ins := s.ins + [h])
      else Match(s.(outs := s.outs[1..]), h, s.outs[0], replicates, reports)
    case SendOut(h, replicates, reports) =>
      if s.error || s.ins == [] then s.(outs := s.outs + [h])
      else Match(s.(ins := s.ins[1..]), s.ins[0], h, replicates, reports)
    case FlushIn => s.(ins := [], flushedIns := s.flushedIns + s.ins)
    case FlushOut => s.(outs := [], flushedOuts := s.flushedOuts + s.outs)
  }

  function Run(events: seq<Event>): State {
    if events == [] then EMPTY else Step(Run(events[..|events| - 1]), events[|events| - 1])
  }

  class Component {
    var inQueue: seq<Header>
    var outQueue: seq<Header>
    var error: bool
    var done: seq<Pair>             // the pairs given back
    var flushedIns: seq<Header>     // the headers given back by a flush
    var flushedOuts: seq<Header>

    ghost function View(): State
      reads this
    {
      State(inQueue, outQueue, error, done, flushedIns, flushedOuts)
    }

    constructor ()
      ensures View() == EMPTY
    {
      inQueue, outQueue, error, done, flushedIns, flushedOuts := [], [], false, [], [], [];
    }

    /** passthrough_port_send. */
    method PortSend(toInput: bool, buffer: Header, replicates: bool, reports: bool)
      modifies this
      ensures View() == Step(old(View()),
        if toInput then SendIn(buffer, replicates, reports) else SendOut(buffer, replicates, reports))
    {
      if error {
        Queue(toInput, buffer);
        return;
      }
      var input, output := buffer, buffer;
      if toInput {
        if outQueue == [] {
          Queue(toInput, buffer);
          return;
        }
        output, outQueue := outQueue[0], outQueue[1..];
      } else {
        if inQueue == [] {
          Queue(toInput, buffer);
          return;
        }
        input, inQueue := inQueue[0], inQueue[1..];
      }
      if replicates {
        output := input.(id := output.id);
        input := input.(length := 0);
        done := done + [Pair(input, output)];
        return;
      }
      inQueue := inQueue + [input];
      outQueue := outQueue + [output];
      if !reports {
        return;
      }
      error := true;
    }

    method Queue(toInput: bool, buffer: Header)
      modifies this`inQueue, this`outQueue
      ensures inQueue == old(inQueue) + if toInput then [buffer] else []
      ensures outQueue == old(outQueue) + if toInput then [] else [buffer]
    {
      if toInput {
        inQueue := inQueue + [buffer];
      } else {
        outQueue := outQueue + [buffer];
      }
    }

    /** passthrough_port_flush, on either port. */
    method PortFlush(input: bool)
      modifies this
      ensures View() == Step(old(View()), if input then FlushIn else FlushOut)
    {
      if input {
        while inQueue != []
          invariant flushedIns + inQueue == old(flushedIns + inQueue)
          modifies this`inQueue, this`flushedIns
          decreases |inQueue|
        {
          flushedIns, inQueue := flushedIns + [inQueue[0]], inQueue[1..];
        }
      } else {
        while outQueue != []
          invariant flushedOuts + outQueue == old(flushedOuts + outQueue)
          modifies this`outQueue, this`flushedOuts
          decreases |outQueue|
        {
          flushedOuts, outQueue := flushedOuts + [outQueue[0]], outQueue[1..];
        }
      }
    }
  }

  /** The k-th input has been replicated into exactly the k-th output, as far as both exist; the
      surplus of the port that is ahead waits in order, and nothing else does. */
  ghost predicate Paired(s: State, inputs: seq<Header>, outputs: seq<Header>) {
    var m := CInt.Min(|inputs|, |outputs|);
    && !s.error && |s.done| == m
    && (forall k :: 0 <= k < m ==> s.done[k] == Pair(Consumed(inputs[k]), Replica(outputs[k], inputs[k])))
    && s.ins == inputs[m..] && s.outs == outputs[m..]
  }

  /** Sends whose replication succeeds keep the pairing. */
  lemma SendKeepsPairing(s: State, inputs: seq<Header>, outputs: seq<Header>, e: Event)
    requires Paired(s, inputs, outputs) && (e.SendIn? || e.SendOut?) && e.replicates
    ensures e.SendIn? ==> Paired(Step(s, e), inputs + [e.header], outputs)
    ensures e.SendOut? ==> Paired(Step(s, e), inputs, outputs + [e.header])
  {
    var m := CInt.Min(|inputs|, |outputs|);
    var t := Step(s, e);
    if e.SendIn? && s.outs != [] {
      assert s.outs[0] == outputs[m] && m == |inputs|;
      assert t.outs == outputs[m + 1..] && t.ins == [] == (inputs + [e.header])[m + 1..];
    } else if e.SendOut? && s.ins != [] {
      assert s.ins[0] == inputs[m] && m == |outputs|;
      assert t.ins == inputs[m + 1..] && t.outs == [] == (outputs + [e.header])[m + 1..];
    }
  }

  /** A flush keeps the pairing of the headers it leaves: the flushed ones are forgotten and the next
      header sent takes their place. */
  lemma FlushKeepsPairing(s: State, inputs: seq<Header>, outputs: seq<Header>)
    requires Paired(s, inputs, outputs)
    ensures Paired(Step(s, FlushIn), inputs[..|inputs| - |s.ins|], outputs)
    ensures Paired(Step(s, FlushOut), inputs, outputs[..|outputs| - |s.outs|])
  {
  }

  function Inputs(events: seq<Event>): seq<Header> {
    if events == [] then []
    else
      var e := events[|events| - 1];
      Inputs(events[..|events| - 1]) + if e.SendIn? then [e.header] else []
  }

  function Outputs(events: seq<Event>): seq<Header> {
    if events == [] then []
    else
      var e := events[|events| - 1];
      Outputs(events[..|events| - 1]) + if e.SendOut? then [e.header] else []
  }

  predicate Succeeding(events: seq<Event>) {
    forall i :: 0 <= i < |events| ==> (events[i].SendIn? || events[i].SendOut?) && events[i].replicates
  }

  /** Any interleaving of successful sends pairs the k-th input with the k-th output; at most one queue
      is nonempty, and the queue lengths are the surplus of one port over the other. */
  lemma {:induction false} RunPairs(events: seq<Event>)
    requires Succeeding(events)
    ensures Paired(Run(events), Inputs(events), Outputs(events))
    ensures
      var s, n, m := Run(events), |Inputs(events)|, |Outputs(events)|;
      && (s.ins == [] || s.outs == [])
      && |s.ins| == (if n > m then n - m else 0) && |s.outs| == (if m > n then m - n else 0)
  {
    if events != [] {
      var before := events[..|events| - 1];
      RunPairs(before);
      SendKeepsPairing(Run(before), Inputs(before), Outputs(before), events[|events| - 1]);
    }
  }

  /** On the fields: the k-th pair gives out the k-th output header with the length and content of the k-th
      input, and gives back the k-th input header with nothing left in it. */
  ghost predicate PassesThrough(done: seq<Pair>, inputs: seq<Header>, outputs: seq<Header>) {
    && |done| <= |inputs| && |done| <= |outputs|
    && forall k :: 0 <= k < |done| ==>
      && done[k].output.id == outputs[k].id
      && done[k].output.length == inputs[k].length && done[k].output.content == inputs[k].content
      && done[k].input.id == inputs[k].id
      && done[k].input.length == 0 && done[k].input.content == inputs[k].content
  }

  /** What a header carries. */
  function Payloads(headers: seq<Header>): seq<(nat, int)> {
    seq(|headers|, k requires 0 <= k < |headers| => (headers[k].length, headers[k].content))
  }

  function GivenOut(done: seq<Pair>): seq<Header> {
    seq(|done|, k requires 0 <= k < |done| => done[k].output)
  }

  /** The component passes its input through: in any run of successful sends the payloads given out are, in
      order, the first of the payloads sent in, as many as both ports have been sent headers. */
  lemma PayloadsPassThrough(events: seq<Event>)
    requires Succeeding(events)
    ensures
      var done, inputs, outputs := Run(events).done, Inputs(events), Outputs(events);
      && PassesThrough(done, inputs, outputs)
      && Payloads(GivenOut(done)) == Payloads(inputs)[..CInt.Min(|inputs|, |outputs|)]
  {
    RunPairs(events);
    hide Run, Inputs, Outputs;
  }

  /** Two runs of successful sends with the same inputs in the same order and the same outputs in the
      same order end in the same state: the interleaving of the two ports does not matter. */
  lemma InterleavingDoesNotMatter(a: seq<Event>, b: seq<Event>)
    requires Succeeding(a) && Succeeding(b) && Inputs(a) == Inputs(b) && Outputs(a) == Outputs(b)
    ensures Run(a).ins == Run(b).ins && Run(a).outs == Run(b).outs && Run(a).done == Run(b).done
  {
    RunPairs(a);
    RunPairs(b);
    assert Run(a).done == Run(b).done;
  }

  function Ids(headers: seq<Header>): seq<int> {
    seq(|headers|, i requires 0 <= i < |headers| => headers[i].id)
  }

  function DoneIns(done: seq<Pair>): seq<int> {
    seq(|done|, i requires 0 <= i < |done| => done[i].input.id)
  }

  function DoneOuts(done: seq<Pair>): seq<int> {
    seq(|done|, i requires 0 <= i < |done| => done[i].output.id)
  }

  /** Every header sent to a port is waiting in its queue or has been given back, exactly once. */
  ghost predicate Conserved(s: State, inputs: seq<Header>, outputs: seq<Header>) {
    && multiset(Ids(s.ins)) + multiset(DoneIns(s.done)) + multiset(Ids(s.flushedIns)) == multiset(Ids(inputs))
    && multiset(Ids(s.outs)) + multiset(DoneOuts(s.done)) + multiset(Ids(s.flushedOuts)) == multiset(Ids(outputs))
  }

  lemma AppendId(a: seq<Header>, h: Header)
    ensures multiset(Ids(a + [h])) == multiset(Ids(a)) + multiset{h.id}
  {
    assert Ids(a + [h]) == Ids(a) + [h.id];
  }

  lemma SplitIds(a: seq<Header>)
    requires a != []
    ensures multiset(Ids(a)) == multiset(Ids(a[1..])) + multiset{a[0].id}
  {
    assert Ids(a) == [a[0].id] + Ids(a[1..]);
  }

  lemma JoinIds(a: seq<Header>, b: seq<Header>)
    ensures multiset(Ids(a + b)) == multiset(Ids(a)) + multiset(Ids(b))
  {
    assert Ids(a + b) == Ids(a) + Ids(b);
  }

  lemma MatchConserves(s: State, input: Header, output: Header, replicates: bool, reports: bool)
    ensures
      var t := Match(s, input, output, replicates, reports);
      && multiset(Ids(t.ins)) + multiset(DoneIns(t.done))
        == multiset(Ids(s.ins)) + multiset(DoneIns(s.done)) + multiset{input.id}
      && multiset(Ids(t.outs)) + multiset(DoneOuts(t.done))
        == multiset(Ids(s.outs)) + multiset(DoneOuts(s.done)) + multiset{output.id}
  {
    var t := Match(s, input, output, replicates, reports);
    if replicates {
      assert DoneIns(t.done) == DoneIns(s.done) + [input.id];
      assert DoneOuts(t.done) == DoneOuts(s.done) + [output.id];
    } else {
      AppendId(s.ins, input);
      AppendId(s.outs, output);
    }
  }

  /** Nothing is lost or given back twice in any run, with failures, flushes and all. */
  lemma {:induction false} RunConserves(events: seq<Event>)
    ensures Conserved(Run(events), Inputs(events), Outputs(events))
  {
    if events != [] {
      var before, e := events[..|events| - 1], events[|events| - 1];
      RunConserves(before);
      StepConserves(Run(before), Inputs(before), Outputs(before), e);
      assert Inputs(before) + [] == Inputs(before) && Outputs(before) + [] == Outputs(before);
    }
  }

  lemma StepConserves(s: State, inputs: seq<Header>, outputs: seq<Header>, e: Event)
    requires Conserved(s, inputs, outputs)
    ensures Conserved(Step(s, e),
                      inputs + (if e.SendIn? then [e.header] else []), outputs + if e.SendOut? then [e.header] else [])
  {
    assert inputs + [] == inputs && outputs + [] == outputs;
    match e
    case SendIn(_, _, _) => SendInConserves(s, inputs, outputs, e);
    case SendOut(_, _, _) => SendOutConserves(s, inputs, outputs, e);
    case FlushIn => JoinIds(s.flushedIns, s.ins);
    case FlushOut => JoinIds(s.flushedOuts, s.outs);
  }

  lemma SendInConserves(s: State, inputs: seq<Header>, outputs: seq<Header>, e: Event)
    requires Conserved(s, inputs, outputs) && e.SendIn?
    ensures Conserved(Step(s, e), inputs + [e.header], outputs)
  {
    hide Ids;
    hide DoneIns;
    hide DoneOuts;
    hide Match;
    AppendId(inputs, e.header);
    if s.error || s.outs == [] {
      AppendId(s.ins, e.header);
    } else {
      SplitIds(s.outs);
      MatchKeepsFlushed(s.(outs := s.outs[1..]), e.header, s.outs[0], e.replicates, e.reports);
      MatchConserves(s.(outs := s.outs[1..]), e.header, s.outs[0], e.replicates, e.reports);
    }
  }

  lemma SendOutConserves(s: State, inputs: seq<Header>, outputs: seq<Header>, e: Event)
    requires Conserved(s, inputs, outputs) && e.SendOut?
    ensures Conserved(Step(s, e), inputs, outputs + [e.header])
  {
    hide Ids;
    hide DoneIns;
    hide DoneOuts;
    hide Match;
    AppendId(outputs, e.header);
    if s.error || s.ins == [] {
      AppendId(s.outs, e.header);
    } else {
      SplitIds(s.ins);
      MatchKeepsFlushed(s.(ins := s.ins[1..]), s.ins[0], e.header, e.replicates, e.reports);
      MatchConserves(s.(ins := s.ins[1..]), s.ins[0], e.header, e.replicates, e.reports);
    }
  }

  lemma MatchKeepsFlushed(s: State, input: Header, output: Header, replicates: bool, reports: bool)
    ensures Match(s, input, output, replicates, reports).flushedIns == s.flushedIns
    ensures Match(s, input, output, replicates, reports).flushedOuts == s.flushedOuts
  {
  }

  /** Once a failure has been reported the component never matches again: whatever happens, no pair is
      given back any more. */
  lemma {:induction false} NothingAfterError(events: seq<Event>, later: seq<Event>)
    requires Run(events).error
    ensures Run(events + later).error && Run(events + later).done == Run(events).done
  {
    if later == [] {
      assert events + later == events;
    } else {
      NothingAfterError(events, later[..|later| - 1]);
      assert (events + later)[..|events + later| - 1] == events + later[..|later| - 1];
    }
  }

  /** A failure whose report cannot be sent breaks the pairing without stopping the component: the
      header taken from the head of its queue goes back to the tail, so the second input is later
      given back before the first. */
  lemma UnreportedFailureReorders(a: Header, b: Header, x: Header, y: Header)
    ensures
      var s := Run([SendIn(a, true, true), SendIn(b, true, true), SendOut(x, false, false), SendOut(y, true, true)]);
      !s.error && s.done == [Pair(Consumed(b), Replica(y, b))] && s.ins == [a] && s.outs == [x]
  {
    var e1, e2 := SendIn(a, true, true), SendIn(b, true, true);
    var e3, e4 := SendOut(x, false, false), SendOut(y, true, true);
    assert [e1][..0] == [] && [e1, e2][..1] == [e1] && [e1, e2, e3][..2] == [e1, e2];
    assert [e1, e2, e3, e4][..3] == [e1, e2, e3];
    assert Run([e1]) == Step(EMPTY, e1);
    assert Run([e1, e2]) == EMPTY.(ins := [a, b]);
    assert Run([e1, e2, e3]) == EMPTY.(ins := [b, a], outs := [x]);
  }

  // ----- exactly when the pairing is in order -----

  /** Every pair given back consists of the k-th input and the k-th output. */
  ghost predicate InOrder(s: State, inputs: seq<Header>, outputs: seq<Header>) {
    && |s.done| <= |inputs| && |s.done| <= |outputs|
    && forall k :: 0 <= k < |s.done| ==> s.done[k] == Pair(Consumed(inputs[k]), Replica(outputs[k], inputs[k]))
  }

  /** The event finds a header to match, replication fails, and the failure is not reported. */
  predicate FailsUnreported(s: State, e: Event) {
    && !s.error && (e.SendIn? || e.SendOut?) && !e.replicates && !e.reports
    && (if e.SendIn? then s.outs != [] else s.ins != [])
  }

  /** Pairs in order are exactly those that pass their payloads through. */
  lemma InOrderPassesThrough(s: State, inputs: seq<Header>, outputs: seq<Header>)
    ensures InOrder(s, inputs, outputs) <==> PassesThrough(s.done, inputs, outputs)
  {
    if PassesThrough(s.done, inputs, outputs) {
      forall k | 0 <= k < |s.done|
        ensures s.done[k] == Pair(Consumed(inputs[k]), Replica(outputs[k], inputs[k]))
      {
        assert s.done[k].input == Consumed(inputs[k]) && s.done[k].output == Replica(outputs[k], inputs[k]);
      }
    }
  }

  /** Nothing is given back after such an event. */
  ghost predicate NothingAfterUnreported(events: seq<Event>) {
    forall i :: 0 <= i < |events| && FailsUnreported(Run(events[..i]), events[i]) ==>
      |Run(events).done| == |Run(events[..i]).done|
  }

  predicate FlushFree(events: seq<Event>) {
    forall i :: 0 <= i < |events| ==> events[i].SendIn? || events[i].SendOut?
  }

  ghost predicate DistinctIds(headers: seq<Header>) {
    forall i, j :: 0 <= i < j < |headers| ==> headers[i].id != headers[j].id
  }

  /** What a run has given back and received only grows. */
  lemma {:induction false} RunGrows(events: seq<Event>, i: nat)
    requires i <= |events|
    ensures Run(events[..i]).done <= Run(events).done
    ensures Inputs(events[..i]) <= Inputs(events) && Outputs(events[..i]) <= Outputs(events)
    decreases |events|
  {
    hide Step;
    if i < |events| {
      var before := events[..|events| - 1];
      RunGrows(before, i);
      assert before[..i] == events[..i];
      StepGrows(Run(before), events[|events| - 1]);
    } else {
      assert events[..i] == events;
    }
  }

  lemma StepGrows(s: State, e: Event)
    ensures s.done <= Step(s, e).done
  {
  }

  /** Without a flush, a header sent is either matched or queued. */
  lemma {:induction false} RunCounts(events: seq<Event>)
    requires FlushFree(events)
    ensures |Run(events).ins| + |Run(events).done| == |Inputs(events)|
    ensures |Run(events).outs| + |Run(events).done| == |Outputs(events)|
    decreases |events|
  {
    if events != [] {
      RunCounts(events[..|events| - 1]);
    }
  }

  /** As long as no failure has gone unreported and the component has not stopped, the pairing holds. */
  lemma {:induction false} NoFailurePairs(events: seq<Event>)
    requires FlushFree(events) && !Run(events).error
    requires forall i :: 0 <= i < |events| ==> !FailsUnreported(Run(events[..i]), events[i])
    ensures Paired(Run(events), Inputs(events), Outputs(events))
    decreases |events|
  {
    if events != [] {
      var n := |events| - 1;
      var before, e := events[..n], events[n];
      forall i | 0 <= i < n
        ensures !FailsUnreported(Run(before[..i]), before[i])
      {
        assert before[..i] == events[..i];
      }
      NoFailurePairs(before);
      assert !FailsUnreported(Run(before), e);
      LastSend(Run(before), Inputs(before), Outputs(before), e);
    }
  }

  lemma LastSend(s: State, inputs: seq<Header>, outputs: seq<Header>, e: Event)
    requires Paired(s, inputs, outputs) && (e.SendIn? || e.SendOut?)
    requires !FailsUnreported(s, e) && !Step(s, e).error
    ensures e.SendIn? ==> Paired(Step(s, e), inputs + [e.header], outputs)
    ensures e.SendOut? ==> Paired(Step(s, e), inputs, outputs + [e.header])
  {
    if e.replicates {
      SendKeepsPairing(s, inputs, outputs, e);
    } else {
      hide Consumed;
      hide Replica;
    }
  }

  /** If nothing is given back after an unreported failure, the pairs are in order. */
  lemma {:induction false} PairsInOrder(events: seq<Event>)
    requires FlushFree(events) && NothingAfterUnreported(events)
    ensures InOrder(Run(events), Inputs(events), Outputs(events))
    decreases |events|
  {
    if events != [] {
      var n := |events| - 1;
      var before, e := events[..n], events[n];
      RunGrows(events, n);
      forall i | 0 <= i < n && FailsUnreported(Run(before[..i]), before[i])
        ensures |Run(before).done| == |Run(before[..i]).done|
      {
        assert before[..i] == events[..i];
        RunGrows(before, i);
      }
      PairsInOrder(before);
      if |Run(events).done| > |Run(before).done| {
        forall i | 0 <= i < n
          ensures !FailsUnreported(Run(before[..i]), before[i])
        {
          assert before[..i] == events[..i];
          RunGrows(before, i);
        }
        NoFailurePairs(before);
        SendKeepsPairing(Run(before), Inputs(before), Outputs(before), e);
      }
    }
  }

  /** Pair `m` contains a header whose number is too high. */
  ghost predicate TooNew(done: seq<Pair>, m: nat, inputs: seq<Header>, outputs: seq<Header>)
    requires m < |done|
  {
    || (exists k :: m < k < |inputs| && done[m].input.id == inputs[k].id)
    || (exists k :: m < k < |outputs| && done[m].output.id == outputs[k].id)
  }

  lemma TooNewStays(
      a: seq<Pair>, b: seq<Pair>, m: nat,
      inputs: seq<Header>, outputs: seq<Header>, ins: seq<Header>, outs: seq<Header>)
    requires m < |a| && a <= b && inputs <= ins && outputs <= outs && TooNew(a, m, inputs, outputs)
    ensures TooNew(b, m, ins, outs)
  {
  }

  /** A pair given back after an unreported failure at `i` contains a header that was sent after the
      failure. */
  lemma {:induction false} LaterPairIsNewer(events: seq<Event>, i: nat)
    requires FlushFree(events) && i < |events| && FailsUnreported(Run(events[..i]), events[i])
    requires |Run(events).done| > |Run(events[..i]).done|
    ensures TooNew(Run(events).done, |Run(events[..i]).done|, Inputs(events), Outputs(events))
    decreases |events|
  {
    hide Run;
    hide Inputs;
    hide Outputs;
    hide FailsUnreported;
    hide TooNew;
    var n, m := |events| - 1, |Run(events[..i]).done|;
    var before := events[..n];
    RunGrows(events, n);
    if i == n {
      FailureMatchesNothing(events);
    } else {
      assert before[..i] == events[..i] && before[i] == events[i];
      if |Run(before).done| > m {
        LaterPairIsNewer(before, i);
        TooNewStays(Run(before).done, Run(events).done, m,
                    Inputs(before), Outputs(before), Inputs(events), Outputs(events));
      } else {
        RunGrows(before, i);
        LastPairIsNewer(events, i);
      }
    }
  }

  lemma FailureMatchesNothing(events: seq<Event>)
    requires events != [] && FailsUnreported(Run(events[..|events| - 1]), events[|events| - 1])
    ensures Run(events).done == Run(events[..|events| - 1]).done
  {
  }

  lemma LastPairIsNewer(events: seq<Event>, i: nat)
    requires FlushFree(events) && i < |events| - 1 && FailsUnreported(Run(events[..i]), events[i])
    requires
      var m, before := |Run(events[..i]).done|, Run(events[..|events| - 1]);
      |before.done| == m && |Run(events).done| > m
    ensures TooNew(Run(events).done, |Run(events[..i]).done|, Inputs(events), Outputs(events))
  {
    var n := |events| - 1;
    var before, e := events[..n], events[n];
    FailureCounts(events, i);
    RunGrows(before, i + 1);
    assert before[..i + 1] == events[..i + 1];
    NewerMatch(Run(before), e);
    hide Step;
    hide FailsUnreported;
    var k := if e.SendIn? then |Inputs(before)| else |Outputs(before)|;
    assert e.SendIn? ==> Inputs(events)[k] == e.header;
    assert e.SendOut? ==> Outputs(events)[k] == e.header;
  }

  /** A match consists of the header just sent and one that waited. */
  lemma NewerMatch(s: State, e: Event)
    requires |Step(s, e).done| > |s.done|
    ensures e.SendIn? || e.SendOut?
    ensures e.SendIn? ==> Step(s, e).done[|s.done|].input.id == e.header.id
    ensures e.SendOut? ==> Step(s, e).done[|s.done|].output.id == e.header.id
  {
  }

  /** After a failure both ports have been sent more headers than were matched. */
  lemma FailureCounts(events: seq<Event>, i: nat)
    requires FlushFree(events) && i < |events| && FailsUnreported(Run(events[..i]), events[i])
    ensures |Inputs(events[..i + 1])| > |Run(events[..i]).done| && |Outputs(events[..i + 1])| > |Run(events[..i]).done|
  {
    RunCounts(events[..i]);
    assert events[..i + 1][..i] == events[..i];
  }

  /** Exactly when the pairing is in order: over any run without a flush, of headers with distinct
      numbers, the k-th pair given back consists of the k-th input and the k-th output if and only if
      nothing is given back after a failure that was not reported. */
  lemma InOrderIff(events: seq<Event>)
    requires FlushFree(events) && DistinctIds(Inputs(events)) && DistinctIds(Outputs(events))
    ensures InOrder(Run(events), Inputs(events), Outputs(events)) <==> NothingAfterUnreported(events)
  {
    if NothingAfterUnreported(events) {
      PairsInOrder(events);
    } else {
      var i :| 0 <= i < |events| && FailsUnreported(Run(events[..i]), events[i])
        && |Run(events).done| != |Run(events[..i]).done|;
      RunGrows(events, i);
      LaterPairIsNewer(events, i);
      hide Run;
      hide Inputs;
      hide Outputs;
    }
  }

  /** So a caller that has every failure reported gets its pairs in order, with or without failures. */
  lemma ReportedFailuresKeepOrder(events: seq<Event>)
    requires FlushFree(events) && forall i :: 0 <= i < |events| ==> events[i].replicates || events[i].reports
    ensures InOrder(Run(events), Inputs(events), Outputs(events))
  {
    PairsInOrder(events);
  }

  /** Only failures end the pairing: in every run, flushes included, a failed replication is the only
      way both queues can become nonempty. */
  lemma {:induction false} BothQueuesMeanFailure(events: seq<Event>)
    requires Run(events).ins != [] && Run(events).outs != []
    ensures exists i :: 0 <= i < |events| && (events[i].SendIn? || events[i].SendOut?) && !events[i].replicates
  {
    if events != [] {
      var before, e := events[..|events| - 1], events[|events| - 1];
      if !((e.SendIn? || e.SendOut?) && !e.replicates) {
        if Run(before).ins != [] && Run(before).outs != [] {
          BothQueuesMeanFailure(before);
        } else if Run(before).error {
          ErrorMeansFailure(before);
        }
      }
    }
  }

  lemma {:induction false} ErrorMeansFailure(events: seq<Event>)
    requires Run(events).error
    ensures exists i :: 0 <= i < |events| && (events[i].SendIn? || events[i].SendOut?) && !events[i].replicates
  {
    if events != [] {
      var before, e := events[..|events| - 1], events[|events| - 1];
      if Run(before).error {
        ErrorMeansFailure(before);
      }
    }
  }
}
