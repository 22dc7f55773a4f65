/**
  When the passthrough component keeps its pairs in order, read off the calls alone: which sends meet a
  waiting header, which of them fail to replicate, and which failures are reported (passthrough.c:112-166).
 */
module PassthroughOrder {
  import opened Passthrough

  /** The other port is ahead, so the send at `i` meets a waiting header while nothing has failed. */
  predicate Meets(events: seq<Event>, i: nat)
    requires i < |events|
  {
    var n, m := |Inputs(events[..i])|, |Outputs(events[..i])|;
    if events[i].SendIn? then m > n else events[i].SendOut? && n > m
  }

  /** The first send that meets a header and fails to replicate it. */
  ghost predicate FirstFailure(events: seq<Event>, i: nat)
    requires i < |events|
  {
    && Meets(events, i) && !events[i].replicates
    && forall k :: 0 <= k < i && Meets(events, k) ==> events[k].replicates
  }

  /** Between `i` and `n` a failure is reported. */
  ghost predicate Stops(events: seq<Event>, i: nat, n: nat)
    requires n <= |events|
  {
    exists k :: i < k < n && !FlushEvent(events[k]) && !events[k].replicates && events[k].reports
  }

  predicate FlushEvent(e: Event) { e.FlushIn? || e.FlushOut? }

  /** After `i` a send replicates before a failure is reported. */
  ghost predicate Resumes(events: seq<Event>, i: nat) {
    exists j :: i < j < |events| && !FlushEvent(events[j]) && events[j].replicates && !Stops(events, i, j)
  }

  lemma StopsPrefix(events: seq<Event>, i: nat, n: nat)
    requires n < |events|
    ensures Stops(events[..|events| - 1], i, n) == Stops(events, i, n)
    ensures !FlushEvent(events[n]) && n > i ==>
      (Stops(events, i, n + 1) <==> Stops(events, i, n) || (!events[n].replicates && events[n].reports))
  {
    var before := events[..|events| - 1];
    assert forall k :: 0 <= k < n ==> before[k] == events[k];
    if Stops(events, i, n) {
      var k :| i < k < n && !FlushEvent(events[k]) && !events[k].replicates && events[k].reports;
      assert before[k] == events[k];
    }
  }

  lemma ResumesPrefix(events: seq<Event>, i: nat)
    requires FlushFree(events) && i < |events| - 1
    ensures
      var n := |events| - 1;
      Resumes(events, i) <==> Resumes(events[..n], i) || (events[n].replicates && !Stops(events, i, n))
  {
    hide Stops;
    var n := |events| - 1;
    var before := events[..n];
    forall j: nat | j < n
      ensures Stops(before, i, j) == Stops(events, i, j) && before[j] == events[j]
    {
      StopsPrefix(events, i, j);
    }
    if Resumes(events, i) {
      var j :| i < j < |events| && !FlushEvent(events[j]) && events[j].replicates && !Stops(events, i, j);
      assert j < n ==> before[j].replicates && !Stops(before, i, j);
    }
    if Resumes(before, i) {
      var j :| i < j < |before| && !FlushEvent(before[j]) && before[j].replicates && !Stops(before, i, j);
      assert events[j].replicates && !Stops(events, i, j);
    }
  }

  /** What has come of a failure at `i` that went unreported: both queues stay nonempty until a send
      replicates or a failure is reported. */
  ghost predicate Aftermath(events: seq<Event>, i: nat)
    requires i < |events|
  {
    var s := Run(events);
    && (|s.done| > |Run(events[..i]).done| <==> Resumes(events, i))
    && (!Resumes(events, i) ==> (s.error <==> Stops(events, i, |events|)))
    && (!Resumes(events, i) && !s.error ==> s.ins != [] && s.outs != [])
  }

  lemma AtOnce(events: seq<Event>, i: nat)
    requires i + 1 == |events| && FailsUnreported(Run(events[..i]), events[i])
    ensures Aftermath(events, i)
  {
  }

  /** One send more: `done` pairs had been given back at the failure; since then a send has or has not
      replicated, or stopped the component first. */
  lemma SendAfter(s: State, e: Event, done: nat, resumed: bool, stopped: bool)
    requires e.SendIn? || e.SendOut?
    requires |s.done| >= done && (|s.done| > done <==> resumed)
    requires !resumed ==> if stopped then s.error else !s.error && s.ins != [] && s.outs != []
    ensures
      var r := Step(s, e);
      var resumes, stops := resumed || (e.replicates && !stopped), stopped || (!e.replicates && e.reports);
      && (|r.done| > done <==> resumes)
      && (!resumes ==> if stops then r.error else !r.error && r.ins != [] && r.outs != [])
  {
  }

  lemma OneMoreSend(events: seq<Event>, i: nat)
    requires FlushFree(events) && i < |events| - 1 && Aftermath(events[..|events| - 1], i)
    ensures Aftermath(events, i)
  {
    var n := |events| - 1;
    var before := events[..n];
    assert before[..i] == events[..i];
    RunGrows(before, i);
    ResumesPrefix(events, i);
    StopsPrefix(events, i, n);
    SendsOnly(events);
    RunStep(events);
    hide Resumes, Stops, Run, Step, FlushFree;
    SendAfter(Run(before), events[n], |Run(events[..i]).done|, Resumes(before, i), Stops(before, i, n));
  }

  lemma RunStep(events: seq<Event>)
    requires events != []
    ensures Run(events) == Step(Run(events[..|events| - 1]), events[|events| - 1])
  {
  }

  /** So something more is given back after an unreported failure exactly when a send replicates first. */
  lemma {:induction false} AfterUnreported(events: seq<Event>, i: nat)
    requires FlushFree(events) && i < |events| && FailsUnreported(Run(events[..i]), events[i])
    ensures Aftermath(events, i)
    decreases |events|
  {
    hide Aftermath, FailsUnreported, Run;
    if i + 1 == |events| {
      AtOnce(events, i);
    } else {
      var before := events[..|events| - 1];
      assert before[..i] == events[..i] && before[i] == events[i];
      AfterUnreported(before, i);
      OneMoreSend(events, i);
    }
  }

  // ----- before the first failure -----

  /** While every send that meets a header replicates it, the queues are the surplus of one port. */
  lemma {:induction false} QueuesAreSurplus(events: seq<Event>)
    requires FlushFree(events) && forall k :: 0 <= k < |events| && Meets(events, k) ==> events[k].replicates
    ensures !Run(events).error
    ensures
      var s, n, m := Run(events), |Inputs(events)|, |Outputs(events)|;
      |s.ins| == (if n > m then n - m else 0) && |s.outs| == (if m > n then m - n else 0)
    decreases |events|
  {
    if events != [] {
      var n := |events| - 1;
      var before := events[..n];
      forall k | 0 <= k < n && Meets(before, k)
        ensures before[k].replicates
      {
        assert before[..k] == events[..k];
        assert Meets(events, k);
      }
      QueuesAreSurplus(before);
      assert Meets(events, n) ==> events[n].replicates;
    }
  }

  /** The first failure happens in a component that has not stopped. */
  lemma FirstFailureFails(events: seq<Event>, i: nat)
    requires FlushFree(events) && i < |events|
    requires forall k :: 0 <= k < i && Meets(events, k) ==> events[k].replicates
    ensures FailsUnreported(Run(events[..i]), events[i]) <==> FirstFailure(events, i) && !events[i].reports
    ensures FirstFailure(events, i) && events[i].reports ==> Run(events[..i + 1]).error
  {
    var before := events[..i];
    forall k | 0 <= k < i && Meets(before, k)
      ensures before[k].replicates
    {
      assert before[..k] == events[..k];
      assert Meets(events, k);
    }
    QueuesAreSurplus(before);
    assert events[..i + 1][..i] == before;
  }

  lemma {:induction false} SomeFirst(events: seq<Event>, k: nat)
    requires k < |events| && Meets(events, k) && !events[k].replicates
    ensures exists i :: 0 <= i <= k && FirstFailure(events, i)
  {
    if m: nat :| m < k && Meets(events, m) && !events[m].replicates {
      SomeFirst(events, m);
    } else {
      assert FirstFailure(events, k);
    }
  }

  lemma SendsOnly(events: seq<Event>)
    requires FlushFree(events)
    ensures forall i {:trigger events[i]} :: 0 <= i < |events| ==> events[i].SendIn? || events[i].SendOut?
  {
  }

  /** Before a failure that goes unreported, the component has not stopped. */
  lemma NotStopped(events: seq<Event>, i: nat, k: nat)
    requires i < k < |events| && FailsUnreported(Run(events[..k]), events[k])
    ensures !Run(events[..i + 1]).error
  {
    hide Run;
    assert events[..i + 1] + events[i + 1..k] == events[..k];
    if Run(events[..i + 1]).error {
      NothingAfterError(events[..i + 1], events[i + 1..k]);
    }
  }

  /** The first failure is no later than one that goes unreported, and goes unreported itself. */
  lemma FirstOfUnreported(events: seq<Event>, k: nat)
    requires FlushFree(events) && k < |events| && FailsUnreported(Run(events[..k]), events[k])
    ensures exists i :: 0 <= i <= k && FirstFailure(events, i) && !events[i].reports
  {
    hide Run, FailsUnreported, FirstFailure, Meets, FlushFree;
    SendsOnly(events);
    if m: nat :| m < k && Meets(events, m) && !events[m].replicates {
      SomeFirst(events, m);
      var i: nat :| i <= m && FirstFailure(events, i);
      FirstMeansAllBefore(events, i);
      FirstFailureFails(events, i);
      NotStopped(events, i, k);
    } else {
      FirstFailureFails(events, k);
    }
  }

  // ----- the exact condition -----

  /** If the first failure goes unreported, no later send replicates before a failure is reported. */
  ghost predicate KeepsOrder(events: seq<Event>) {
    forall i :: 0 <= i < |events| && FirstFailure(events, i) && !events[i].reports ==> !Resumes(events, i)
  }

  lemma KeepsOrderMeaning(events: seq<Event>)
    requires FlushFree(events)
    ensures KeepsOrder(events) <==> NothingAfterUnreported(events)
  {
    hide Resumes, FailsUnreported, Run, FirstFailure, Meets;
    if NothingAfterUnreported(events) {
      forall i | 0 <= i < |events| && FirstFailure(events, i) && !events[i].reports
        ensures !Resumes(events, i)
      {
        FirstMeansAllBefore(events, i);
        FirstFailureFails(events, i);
        AfterUnreported(events, i);
      }
    }
    if KeepsOrder(events) {
      forall k | 0 <= k < |events| && FailsUnreported(Run(events[..k]), events[k])
        ensures |Run(events).done| == |Run(events[..k]).done|
      {
        FirstOfUnreported(events, k);
        var i: nat :| i <= k && FirstFailure(events, i) && !events[i].reports;
        FirstMeansAllBefore(events, i);
        FirstFailureFails(events, i);
        AfterUnreported(events, i);
        RunGrows(events, i);
        RunGrows(events, k);
        RunGrows(events[..k], i);
        assert events[..k][..i] == events[..i];
      }
    }
  }

  lemma FirstMeansAllBefore(events: seq<Event>, i: nat)
    requires i < |events| && FirstFailure(events, i)
    ensures forall k :: 0 <= k < i && Meets(events, k) ==> events[k].replicates
  {
  }

  /** Exactly when the pairs are in order, in terms of the calls: the k-th pair given back consists of
      the k-th input and the k-th output, and so passes the k-th payload through, if and only if the first
      failure is reported, or no later send replicates before a failure is. */
  lemma InOrderIffCalls(events: seq<Event>)
    requires FlushFree(events) && DistinctIds(Inputs(events)) && DistinctIds(Outputs(events))
    ensures InOrder(Run(events), Inputs(events), Outputs(events)) <==> KeepsOrder(events)
    ensures PassesThrough(Run(events).done, Inputs(events), Outputs(events)) <==> KeepsOrder(events)
  {
    hide *;
    InOrderIff(events);
    InOrderPassesThrough(Run(events), Inputs(events), Outputs(events));
    KeepsOrderMeaning(events);
  }
}
