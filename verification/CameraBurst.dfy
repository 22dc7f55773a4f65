/**
  The burst of sends in startCapture (private_impl.cpp:128-142) with the camera callback running in
  between (private_impl.cpp:485-498): every operation on the pool queue and every send is a step of its
  own. startCapture first counts the free headers and then fetches that many, without looking whether a
  fetch found one.
 */
module CameraBurst {
  import opened Mmal

  /** Where the callback is: not running, past its release, or holding the header it has fetched. */
  datatype Callback = Away | Released | Holding(header: nat)

  /** Where startCapture is: not running, with some fetches to go, or about to send what it fetched. */
  datatype Starter = Idle | Counted(left: nat) | Fetched(header: Option<nat>, after: nat)

  datatype State = State(
    pool: seq<nat>, port: seq<nat>, dropped: seq<nat>, enabled: bool,
    callback: Callback, starter: Starter, sentNull: bool)

  datatype Event =
    | Release(i: nat) | CallbackFetch | CallbackSend(ok: bool)
    | Count | Fetch | Send(ok: bool) | Done

  predicate Enabled(s: State, e: Event) {
    match e
    case Release(i) => s.callback == Away && i < |s.port|
    case CallbackFetch => s.callback == Released
    case CallbackSend(_) => s.callback.Holding?
    case Count => s.starter == Idle
    case Fetch => s.starter.Counted? && s.starter.left > 0
    case Send(_) => s.starter.Fetched?
    case Done => s.starter == Counted(0)
  }

  function Next(s: State, e: Event): State
    requires Enabled(s, e)
  {
    match e
    case Release(i) =>
      s.(pool := s.pool + [s.port[i]], port := s.port[..i] + s.port[i + 1..], callback := Released)
    case CallbackFetch =>
      if !s.enabled || s.pool == [] then s.(callback := Away)
      else s.(pool := s.pool[1..], callback := Holding(s.pool[0]))
    case CallbackSend(ok) =>
      var t := s.(callback := Away);
      if ok then t.(port := s.port + [s.callback.header]) else t.(dropped := s.dropped + [s.callback.header])
    case Count => s.(starter := Counted(|s.pool|))
    case Fetch =>
      if s.pool == [] then s.(starter := Fetched(None, s.starter.left - 1))
      else s.(pool := s.pool[1..], starter := Fetched(Some(s.pool[0]), s.starter.left - 1))
    case Send(ok) =>
      var t := s.(starter := Counted(s.starter.after));
      if s.starter.header.None? then t.(sentNull := true)
      else if ok then t.(port := s.port + [s.starter.header.value])
      else t.(dropped := s.dropped + [s.starter.header.value])
    case Done => s.(starter := Idle)
  }

  ghost predicate Runs(s: State, es: seq<Event>, t: State)
    decreases |es|
  {
    if es == [] then s == t else Enabled(s, es[0]) && Runs(Next(s, es[0]), es[1..], t)
  }

  // ----- every header is in one place -----

  function InCallback(c: Callback, h: nat): nat { if c == Holding(h) then 1 else 0 }

  function InStarter(s: Starter, h: nat): nat { if s.Fetched? && s.header == Some(h) then 1 else 0 }

  /** In how many places a header is. */
  function Places(s: State, h: nat): nat {
    Copies(s.pool, h) + Copies(s.port, h) + Copies(s.dropped, h) + InCallback(s.callback, h) + InStarter(s.starter, h)
  }

  function Copies(s: seq<nat>, h: nat): nat {
    if s == [] then 0 else (if s[0] == h then 1 else 0) + Copies(s[1..], h)
  }

  lemma {:induction false} CopiesJoin(a: seq<nat>, b: seq<nat>, h: nat)
    ensures Copies(a + b, h) == Copies(a, h) + Copies(b, h)
  {
    if a == [] {
      assert a + b == b;
    } else {
      assert (a + b)[1..] == a[1..] + b;
      CopiesJoin(a[1..], b, h);
    }
  }

  lemma PutLast(s: seq<nat>, x: nat, h: nat)
    ensures Copies(s + [x], h) == Copies(s, h) + if x == h then 1 else 0
  {
    CopiesJoin(s, [x], h);
    assert [x][1..] == [];
  }

  lemma CopiesWithout(s: seq<nat>, i: nat, h: nat)
    requires i < |s|
    ensures Copies(s[..i] + s[i + 1..], h) == Copies(s, h) - if s[i] == h then 1 else 0
  {
    assert s == s[..i] + s[i..] && s[i..][1..] == s[i + 1..];
    CopiesJoin(s[..i], s[i..], h);
    CopiesJoin(s[..i], s[i + 1..], h);
  }

  lemma TakeFirst(s: seq<nat>, h: nat)
    requires s != []
    ensures Copies(s[1..], h) == Copies(s, h) - if s[0] == h then 1 else 0
  {
  }

  lemma CallbackConserves(s: State, e: Event, h: nat)
    requires Enabled(s, e) && (e.Release? || e.CallbackFetch? || e.CallbackSend?)
    ensures Places(Next(s, e), h) == Places(s, h)
  {
    hide InStarter;
    hide Copies;
    match e
    case Release(i) =>
      CopiesWithout(s.port, i, h);
      PutLast(s.pool, s.port[i], h);
    case CallbackFetch =>
      if s.enabled && s.pool != [] { TakeFirst(s.pool, h); }
    case CallbackSend(ok) =>
      PutLast(s.port, s.callback.header, h);
      PutLast(s.dropped, s.callback.header, h);
  }

  lemma StarterConserves(s: State, e: Event, h: nat)
    requires Enabled(s, e) && (e.Count? || e.Fetch? || e.Send? || e.Done?)
    ensures Places(Next(s, e), h) == Places(s, h)
  {
    hide InCallback;
    hide Copies;
    if e.Fetch? && s.pool != [] {
      TakeFirst(s.pool, h);
    }
    if e.Send? && s.starter.header.Some? {
      PutLast(s.port, s.starter.header.value, h);
      PutLast(s.dropped, s.starter.header.value, h);
    }
  }

  /** However the burst and the callbacks interleave, a header that is in one place (the pool, the port,
      refused by the port, or in the hands of one of the two) stays in one place. */
  lemma {:induction false} RunConserves(s: State, es: seq<Event>, t: State, h: nat)
    requires Runs(s, es, t)
    ensures Places(t, h) == Places(s, h)
    decreases |es|
  {
    hide Places, Next;
    if es != [] {
      if es[0].Release? || es[0].CallbackFetch? || es[0].CallbackSend? {
        CallbackConserves(s, es[0], h);
      } else {
        StarterConserves(s, es[0], h);
      }
      RunConserves(Next(s, es[0]), es[1..], t, h);
    }
  }

  // ----- first in, first out -----

  /** The headers put back into the pool, and those taken out of it, in order. */
  ghost function PutBack(s: State, es: seq<Event>, t: State): seq<nat>
    requires Runs(s, es, t)
    decreases |es|
  {
    if es == [] then []
    else (if es[0].Release? then [s.port[es[0].i]] else []) + PutBack(Next(s, es[0]), es[1..], t)
  }

  ghost function TakenOut(s: State, es: seq<Event>, t: State): seq<nat>
    requires Runs(s, es, t)
    decreases |es|
  {
    if es == [] then []
    else
      var r := Next(s, es[0]);
      (if es[0].CallbackFetch? && r.callback.Holding? then [r.callback.header]
       else if es[0].Fetch? && r.starter.header.Some? then [r.starter.header.value]
       else [])
      + TakenOut(r, es[1..], t)
  }

  /** However the burst and the callbacks interleave, headers leave the pool in the order in which they
      entered it. */
  lemma {:induction false} FirstInFirstOut(s: State, es: seq<Event>, t: State)
    requires Runs(s, es, t)
    ensures TakenOut(s, es, t) + t.pool == s.pool + PutBack(s, es, t)
    decreases |es|
  {
    hide Next, Enabled;
    if es != [] {
      var r := Next(s, es[0]);
      FirstInFirstOut(r, es[1..], t);
      var out, back := TakenOut(s, [es[0]], r), PutBack(s, [es[0]], r);
      OneStep(s, es[0]);
      assert [es[0]][1..] == [] && [es[0]][0] == es[0];
      assert TakenOut(s, es, t) == out + TakenOut(r, es[1..], t);
      assert PutBack(s, es, t) == back + PutBack(r, es[1..], t);
      assert out + TakenOut(r, es[1..], t) + t.pool == out + (TakenOut(r, es[1..], t) + t.pool);
      assert out + (r.pool + PutBack(r, es[1..], t)) == (out + r.pool) + PutBack(r, es[1..], t);
      assert (s.pool + back) + PutBack(r, es[1..], t) == s.pool + (back + PutBack(r, es[1..], t));
    }
  }

  lemma OneStep(s: State, e: Event)
    requires Enabled(s, e)
    ensures Runs(s, [e], Next(s, e))
    ensures TakenOut(s, [e], Next(s, e)) + Next(s, e).pool == s.pool + PutBack(s, [e], Next(s, e))
  {
    assert [e][1..] == [];
    assert Runs(Next(s, e), [], Next(s, e));
  }

  // ----- when a fetch finds no header -----

  /** How many headers the two still mean to fetch. */
  function Claims(s: State): nat {
    (if s.starter.Counted? then s.starter.left else if s.starter.Fetched? then s.starter.after else 0)
    + (if s.callback == Released then 1 else 0)
  }

  /** The pool covers all claims, and nothing fetched was missing. */
  predicate Covered(s: State) {
    |s.pool| >= Claims(s) && !s.sentNull && (s.starter.Fetched? ==> s.starter.header.Some?)
  }

  /** No count is taken between a callback's release and its fetch. */
  ghost predicate CountsApart(s: State, es: seq<Event>)
    decreases |es|
  {
    es == [] ||
    (Enabled(s, es[0]) && (es[0] == Count ==> s.callback != Released) && CountsApart(Next(s, es[0]), es[1..]))
  }

  /** Then no fetch of the burst or of a callback ever finds the pool empty, and no null header is sent. */
  lemma {:induction false} NoNullHeader(s: State, es: seq<Event>, t: State)
    requires Covered(s) && Runs(s, es, t) && CountsApart(s, es)
    ensures Covered(t)
    ensures t.starter.Counted? && t.starter.left > 0 ==> t.pool != []
    ensures t.callback == Released ==> t.pool != []
    decreases |es|
  {
    if es != [] {
      NoNullHeader(Next(s, es[0]), es[1..], t);
    }
  }

  lemma FirstStartIsCovered(s: State)
    requires s.starter == Idle && s.callback == Away && !s.sentNull
    ensures Covered(s)
  {
  }

  /** In particular from the first start on, when neither of the two is running. */
  lemma NoNullFromStart(s: State, es: seq<Event>, t: State)
    requires s.starter == Idle && s.callback == Away && !s.sentNull
    requires Runs(s, es, t) && CountsApart(s, es)
    ensures !t.sentNull && (t.starter.Counted? && t.starter.left > 0 ==> t.pool != [])
    ensures t.callback == Released ==> t.pool != []
  {
    FirstStartIsCovered(s);
    NoNullHeader(s, es, t);
  }

  /** The events of a burst that fetches and sends `n` headers. */
  function Burst(n: nat): seq<Event> {
    if n == 0 then [] else [Fetch, Send(true)] + Burst(n - 1)
  }

  lemma {:induction false} BurstRuns(s: State, n: nat) returns (t: State)
    requires s.starter.Counted? && n <= s.starter.left && n <= |s.pool|
    ensures Runs(s, Burst(n), t)
    ensures t.pool == s.pool[n..] && t.starter == Counted(s.starter.left - n) && t.callback == s.callback
    decreases n
  {
    if n == 0 {
      t := s;
    } else {
      var u := Next(Next(s, Fetch), Send(true));
      t := BurstRuns(u, n - 1);
      assert Burst(n)[1..] == [Send(true)] + Burst(n - 1) && ([Send(true)] + Burst(n - 1))[1..] == Burst(n - 1);
      assert Runs(Next(s, Fetch), [Send(true)] + Burst(n - 1), t);
    }
  }

  lemma {:induction false} Append(s: State, a: seq<Event>, m: State, b: seq<Event>, t: State)
    requires Runs(s, a, m) && Runs(m, b, t)
    ensures Runs(s, a + b, t)
    decreases |a|
  {
    if a == [] {
      assert a + b == b;
    } else {
      assert (a + b)[0] == a[0] && (a + b)[1..] == a[1..] + b;
      Append(Next(s, a[0]), a[1..], m, b, t);
    }
  }

  /** The condition is needed: whenever a callback of an enabled port is between its release and its fetch,
      a count taken there includes the header that the callback is about to fetch, and the burst can end
      with a null header. */
  lemma CountInBetweenSendsNull(s: State) returns (es: seq<Event>, t: State)
    requires s.callback == Released && s.enabled && s.starter == Idle && s.pool != []
    ensures Runs(s, es, t) && t.sentNull
  {
    var n := |s.pool|;
    var counted := Next(s, Count);
    var taken := Next(counted, CallbackFetch);
    var last := BurstRuns(taken, n - 1);
    t := Next(Next(last, Fetch), Send(true));
    var tail := [Fetch, Send(true)];
    assert tail[1..] == [Send(true)] && [Send(true)][1..] == [];
    assert Runs(Next(last, Fetch), [Send(true)], t);
    Append(taken, Burst(n - 1), last, tail, t);
    es := [Count, CallbackFetch] + (Burst(n - 1) + tail);
    assert es[1..] == [CallbackFetch] + (Burst(n - 1) + tail) && es[1..][1..] == Burst(n - 1) + tail;
    assert Runs(counted, es[1..], t);
  }
}
