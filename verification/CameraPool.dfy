/**
  Circulation of the camera's buffer headers between the pool queue, the video port and the
  callback (private_impl.cpp:128-142 and 485-498). The queue is first in, first out.
 */
module CameraPool {

  /** The headers whose send had this outcome, in order. */
  function WithOutcome(headers: seq<nat>, sent: seq<bool>, outcome: bool): (r: seq<nat>)
    requires |headers| == |sent|
    ensures |r| <= |headers|
  {
    if headers == [] then []
    else
      var n := |headers| - 1;
      WithOutcome(headers[..n], sent[..n], outcome) + if sent[n] == outcome then [headers[n]] else []
  }

  lemma NextOutcome(before: seq<nat>, headers: seq<nat>, sent: seq<bool>, outcome: bool, n: nat)
    requires |headers| == |sent| && n < |headers|
    ensures before + WithOutcome(headers[..n + 1], sent[..n + 1], outcome)
         == before + WithOutcome(headers[..n], sent[..n], outcome) + if sent[n] == outcome then [headers[n]] else []
  {
    assert headers[..n + 1][..n] == headers[..n] && sent[..n + 1][..n] == sent[..n];
  }

  lemma NoOutcome(before: seq<nat>)
    ensures forall outcome :: before == before + WithOutcome([], [], outcome)
  {
  }

  lemma SnocMultiset(s: seq<nat>, x: nat)
    ensures multiset(s + [x]) == multiset(s) + multiset{x}
  {
  }

  /** Nothing is lost or made up in a burst of sends. */
  lemma {:induction false} EveryHeaderHasAnOutcome(headers: seq<nat>, sent: seq<bool>)
    requires |headers| == |sent|
    ensures multiset(headers) == multiset(WithOutcome(headers, sent, true))
      + multiset(WithOutcome(headers, sent, false))
  {
    if headers != [] {
      var n := |headers| - 1;
      EveryHeaderHasAnOutcome(headers[..n], sent[..n]);
      LastOutcome(headers, sent, sent[n]);
      hide WithOutcome;
      assert headers == headers[..n] + [headers[n]];
      SnocMultiset(headers[..n], headers[n]);
      SnocMultiset(WithOutcome(headers[..n], sent[..n], sent[n]), headers[n]);
    }
  }

  lemma LastOutcome(headers: seq<nat>, sent: seq<bool>, outcome: bool)
    requires |headers| == |sent| > 0 && outcome == sent[|sent| - 1]
    ensures
      var n := |headers| - 1;
      && WithOutcome(headers, sent, outcome) == WithOutcome(headers[..n], sent[..n], outcome) + [headers[n]]
      && WithOutcome(headers, sent, !outcome) == WithOutcome(headers[..n], sent[..n], !outcome)
  {
  }

  /** When every send succeeds, every header is accepted, in the order of the pool. */
  lemma {:induction false} AllAccepted(headers: seq<nat>, sent: seq<bool>)
    requires |headers| == |sent| && forall i :: 0 <= i < |sent| ==> sent[i]
    ensures WithOutcome(headers, sent, true) == headers && WithOutcome(headers, sent, false) == []
  {
    if headers != [] {
      AllAccepted(headers[..|headers| - 1], sent[..|headers| - 1]);
    }
  }

  /** Where the headers are: in the pool queue, with the port, or refused by the port. */
  datatype Places = Places(pool: seq<nat>, port: seq<nat>, dropped: seq<nat>)

  function Headers(p: Places): multiset<nat> { multiset(p.pool) + multiset(p.port) + multiset(p.dropped) }

  /** The port hands back its header at `i`; the oldest free header takes its place while the
      port is enabled. */
  function Recirculated(p: Places, i: nat, enabled: bool, sendOk: bool): Places
    requires i < |p.port|
  {
    var rest, free := p.port[..i] + p.port[i + 1..], p.pool + [p.port[i]];
    if !enabled then Places(free, rest, p.dropped)
    else if sendOk then Places(free[1..], rest + [free[0]], p.dropped)
    else Places(free[1..], rest, p.dropped + [free[0]])
  }

  lemma Exchange(pool: seq<nat>, port: seq<nat>, dropped: seq<nat>, i: nat)
    requires i < |port|
    ensures
      var all := multiset(pool) + multiset(port) + multiset(dropped);
      var rest, free := port[..i] + port[i + 1..], pool + [port[i]];
      && multiset(free) + multiset(rest) + multiset(dropped) == all
      && multiset(free[1..]) + multiset(rest + [free[0]]) + multiset(dropped) == all
      && multiset(free[1..]) + multiset(rest) + multiset(dropped + [free[0]]) == all
  {
    var rest, free := port[..i] + port[i + 1..], pool + [port[i]];
    TakeOut(port, i);
    SnocMultiset(pool, port[i]);
    TakeOut(free, 0);
    assert free[..0] + free[1..] == free[1..];
    SnocMultiset(rest, free[0]);
    SnocMultiset(dropped, free[0]);
  }

  /** However a callback ends, every header is still in exactly one place. */
  lemma RecirculationConserves(p: Places, i: nat, enabled: bool, sendOk: bool)
    requires i < |p.port|
    ensures Headers(Recirculated(p, i, enabled, sendOk)) == Headers(p)
    ensures enabled && sendOk ==> |Recirculated(p, i, enabled, sendOk).port| == |p.port|
  {
    Exchange(p.pool, p.port, p.dropped, i);
  }

  // ----- first in, first out -----

  /** One callback: which header the port gives back, whether the port is enabled, and whether it accepts. */
  datatype Callback = Callback(i: nat, enabled: bool, sendOk: bool)

  ghost predicate Runs(p: Places, cs: seq<Callback>, q: Places)
    decreases |cs|
  {
    if cs == [] then p == q
    else cs[0].i < |p.port| && Runs(Recirculated(p, cs[0].i, cs[0].enabled, cs[0].sendOk), cs[1..], q)
  }

  /** The headers that the port gave back, in order. */
  ghost function Entered(p: Places, cs: seq<Callback>, q: Places): seq<nat>
    requires Runs(p, cs, q)
    decreases |cs|
  {
    if cs == [] then []
    else [p.port[cs[0].i]] + Entered(Recirculated(p, cs[0].i, cs[0].enabled, cs[0].sendOk), cs[1..], q)
  }

  /** The headers that the port was sent, in order: each is now its last, or the last it refused. */
  ghost function Left(p: Places, cs: seq<Callback>, q: Places): seq<nat>
    requires Runs(p, cs, q)
    decreases |cs|
  {
    if cs == [] then []
    else
      var r := Recirculated(p, cs[0].i, cs[0].enabled, cs[0].sendOk);
      (if !cs[0].enabled then [] else if cs[0].sendOk then [r.port[|r.port| - 1]] else [r.dropped[|r.dropped| - 1]])
      + Left(r, cs[1..], q)
  }

  /** Over any run of callbacks the headers leave the pool in the order in which they entered it. */
  lemma {:induction false} FirstInFirstOut(p: Places, cs: seq<Callback>, q: Places)
    requires Runs(p, cs, q)
    ensures Left(p, cs, q) + q.pool == p.pool + Entered(p, cs, q)
    decreases |cs|
  {
    if cs != [] {
      var c := cs[0];
      var r := Recirculated(p, c.i, c.enabled, c.sendOk);
      var free := p.pool + [p.port[c.i]];
      FirstInFirstOut(r, cs[1..], q);
      var entered := Entered(r, cs[1..], q);
      assert p.pool + Entered(p, cs, q) == free + entered;
      if c.enabled {
        assert r.pool == free[1..] && [free[0]] + (free[1..] + entered) == free + entered;
        assert Left(p, cs, q) + q.pool == [free[0]] + (Left(r, cs[1..], q) + q.pool);
      } else {
        assert Left(p, cs, q) + q.pool == Left(r, cs[1..], q) + q.pool;
      }
    }
  }

  /** A burst of sends moves every free header to the port or drops it. */
  lemma BurstConserves(p: Places, sent: seq<bool>)
    requires |sent| == |p.pool|
    ensures Headers(Places([], p.port + WithOutcome(p.pool, sent, true), p.dropped + WithOutcome(p.pool, sent, false)))
      == Headers(p)
  {
    EveryHeaderHasAnOutcome(p.pool, sent);
  }

  class Circulation {
    var pool: seq<nat>         // free headers, oldest first
    var port: seq<nat>         // headers the port holds, in the order they were sent
    var dropped: seq<nat>      // headers the port refused: neither the pool nor the port has them
    var portEnabled: bool
    ghost const all: multiset<nat>

    /** Every header is in exactly one place. */
    ghost predicate Valid()
      reads this
    {
      Headers(Now()) == all
    }

    function Now(): Places
      reads this
    {
      Places(pool, port, dropped)
    }

    constructor (headers: seq<nat>)
      ensures Valid() && pool == headers && port == [] && dropped == [] && portEnabled && all == multiset(headers)
    {
      pool, port, dropped, portEnabled := headers, [], [], true;
      all := multiset(headers);
    }

    /** Send every free header to the port; `sent` tells which sends the port accepts. */
    method StartCapture(sent: seq<bool>)
      requires Valid() && |sent| == |pool|
      modifies this`pool, this`port, this`dropped
      ensures Valid() && pool == []
      ensures port == old(port) + WithOutcome(old(pool), sent, true)
      ensures dropped == old(dropped) + WithOutcome(old(pool), sent, false)
    {
      hide WithOutcome;
      hide Headers;
      ghost var free := pool;
      BurstConserves(Now(), sent);
      NoOutcome(old(port));
      NoOutcome(old(dropped));
      assert free[..0] == [] && sent[..0] == [];
      var num := |pool|;
      var q := 0;
      while q < num
        invariant 0 <= q <= num == |free|
        invariant pool == free[q..]
        invariant port == old(port) + WithOutcome(free[..q], sent[..q], true)
        invariant dropped == old(dropped) + WithOutcome(free[..q], sent[..q], false)
      {
        NextOutcome(old(port), free, sent, true, q);
        NextOutcome(old(dropped), free, sent, false, q);
        var buffer := pool[0];
        pool := pool[1..];
        if sent[q] {
          port := port + [buffer];
        } else {
          dropped := dropped + [buffer];
        }
        q := q + 1;
      }
      assert free[..num] == free && sent[..num] == sent;
    }

    /** The callback for the header at `i` of the port. */
    method VideoBufferCallback(i: nat, sendOk: bool)
      requires Valid() && i < |port|
      modifies this`pool, this`port, this`dropped
      ensures Valid() && Now() == Recirculated(old(Now()), i, portEnabled, sendOk)
      ensures portEnabled && sendOk ==> |port| == |old(port)|
    {
      hide Headers;
      ghost var before := Now();
      RecirculationConserves(before, i, portEnabled, sendOk);
      var buffer := port[i];
      port := port[..i] + port[i + 1..];
      pool := pool + [buffer];
      if portEnabled {
        var newBuffer := pool[0];
        pool := pool[1..];
        if sendOk {
          port := port + [newBuffer];
        } else {
          dropped := dropped + [newBuffer];
        }
      }
    }
  }

  lemma TakeOut(s: seq<nat>, i: nat)
    requires i < |s|
    ensures multiset(s) == multiset(s[..i] + s[i + 1..]) + multiset{s[i]}
  {
    assert s == s[..i] + [s[i]] + s[i + 1..];
  }
}
