/**
  The handshake between threads that grab frames and the camera callback: one mutex, one
  condition variable, the flags `wantToGrab` and `ready`, and the shared frame buffer
  (private_impl.h:57-80, threadcondition.cpp:48-69, private_impl.cpp:466-504). Every access
  to the shared state is its own step, and the condition variable may wake spuriously.
 */
module GrabHandshake {

  /** Where a grabbing thread is. */
  datatype GrabPc =
    | Idle        // outside waitForFrame
    | Entered     // holds the mutex, sets wantToGrab next
    | Requested   // holds the mutex, clears ready next
    | Testing     // holds the mutex, evaluates the loop condition next
    | Blocked     // in cv.wait, not notified
    | Woken       // notified, or woken spuriously: waits for the mutex
    | Leaving     // holds the mutex, saw ready, releases it next

  /** Where the camera callback is. */
  datatype CamPc =
    | Away                                // no callback runs
    | Called(frame: seq<int>)             // waits for the mutex
    | Checking(frame: seq<int>)           // holds the mutex, tests wantToGrab next
    | Copied                              // holds the mutex with hasGrabbed: sets ready next
    | Raised                              // holds the mutex, has set ready: notifies next
    | Finishing                           // holds the mutex, releases it next

  datatype Owner = Free | Grabber(t: nat) | Camera

  /** The shared state, and a history: the frames copied so far, and for each thread how many
      of them had been copied when it last asked. */
  datatype State = State(
    pc: seq<GrabPc>, cam: CamPc, owner: Owner, wantToGrab: bool, ready: bool,
    buffData: seq<int>, copies: seq<seq<int>>, asked: seq<nat>)

  datatype Event =
    | Enter(t: nat) | SetWant(t: nat) | ClearReady(t: nat) | Test(t: nat)
    | Wake(t: nat) | Relock(t: nat) | Leave(t: nat)
    | Call(frame: seq<int>) | Lock | Check | Raise | Notify | Unlock

  ghost predicate Init(s: State) {
    && |s.pc| == |s.asked| && (forall t :: 0 <= t < |s.pc| ==> s.pc[t] == Idle && s.asked[t] == 0)
    && s.cam == Away && s.owner == Free && !s.wantToGrab && !s.ready && s.buffData == [] && s.copies == []
  }

  predicate Enabled(s: State, e: Event) {
    match e
    case Enter(t) => t < |s.pc| == |s.asked| && s.pc[t] == Idle && s.owner == Free
    case SetWant(t) => t < |s.pc| == |s.asked| && s.pc[t] == Entered
    case ClearReady(t) => t < |s.pc| && s.pc[t] == Requested
    case Test(t) => t < |s.pc| && s.pc[t] == Testing
    case Wake(t) => t < |s.pc| && s.pc[t] == Blocked
    case Relock(t) => t < |s.pc| && s.pc[t] == Woken && s.owner == Free
    case Leave(t) => t < |s.pc| && s.pc[t] == Leaving
    case Call(_) => s.cam == Away
    case Lock => s.cam.Called? && s.owner == Free
    case Check => s.cam.Checking?
    case Raise => s.cam == Copied
    case Notify => s.cam == Raised
    case Unlock => s.cam == Finishing
  }

  /** notify_all: no thread stays blocked. */
  function AllWoken(pc: seq<GrabPc>): (r: seq<GrabPc>)
    ensures |r| == |pc|
    ensures forall t :: 0 <= t < |pc| ==> r[t] == if pc[t] == Blocked then Woken else pc[t]
  {
    seq(|pc|, t requires 0 <= t < |pc| => if pc[t] == Blocked then Woken else pc[t])
  }

  function Next(s: State, e: Event): State
    requires Enabled(s, e)
  {
    match e
    case Enter(t) => s.(pc := s.pc[t := Entered], owner := Grabber(t))
    case SetWant(t) => s.(pc := s.pc[t := Requested], wantToGrab := true, asked := s.asked[t := |s.copies|])
    case ClearReady(t) => s.(pc := s.pc[t := Testing], ready := false)
    case Test(t) =>
      if s.ready then s.(pc := s.pc[t := Leaving])
      else s.(pc := s.pc[t := Blocked], owner := Free)
    case Wake(t) => s.(pc := s.pc[t := Woken])
    case Relock(t) => s.(pc := s.pc[t := Testing], owner := Grabber(t))
    case Leave(t) => s.(pc := s.pc[t := Idle], owner := Free)
    case Call(frame) => s.(cam := Called(frame))
    case Lock => s.(cam := Checking(s.cam.frame), owner := Camera)
    case Check =>
      if s.wantToGrab && |s.cam.frame| != 0 then
        s.(cam := Copied, buffData := s.cam.frame, copies := s.copies + [s.cam.frame], wantToGrab := false)
      else s.(cam := Finishing)
    case Raise => s.(cam := Raised, ready := true)
    case Notify => s.(cam := Finishing, pc := AllWoken(s.pc))
    case Unlock => s.(cam := Away, owner := Free)
  }

  /** `t` follows from `s` by the events `es`. */
  ghost predicate Runs(s: State, es: seq<Event>, t: State)
    decreases |es|
  {
    if es == [] then s == t
    else Enabled(s, es[0]) && Runs(Next(s, es[0]), es[1..], t)
  }

  // ----- the invariant -----

  predicate HoldsMutex(pc: GrabPc) {
    pc == Entered || pc == Requested || pc == Testing || pc == Leaving
  }

  predicate CamHoldsMutex(cam: CamPc) {
    cam.Checking? || cam == Copied || cam == Raised || cam == Finishing
  }

  /** Past its request and not yet told that a frame is there. */
  predicate Waiting(pc: GrabPc) {
    pc == Testing || pc == Blocked || pc == Woken
  }

  ghost predicate Exclusive(s: State) {
    && |s.pc| == |s.asked|
    && (forall t :: 0 <= t < |s.pc| ==> (HoldsMutex(s.pc[t]) <==> s.owner == Grabber(t)))
    && (CamHoldsMutex(s.cam) <==> s.owner == Camera)
  }

  ghost predicate Inv(s: State) {
    && Exclusive(s)
    // the flags: a request is pending until it is served, and a served one is announced
    && (forall t :: 0 <= t < |s.pc| && s.pc[t] == Requested ==> s.wantToGrab)
    && (forall t :: 0 <= t < |s.pc| && Waiting(s.pc[t]) ==> s.wantToGrab || s.ready || s.cam == Copied)
    && (forall t :: 0 <= t < |s.pc| && s.pc[t] == Blocked ==> !s.ready || s.cam == Raised)
    && (forall t :: 0 <= t < |s.pc| && s.pc[t] == Blocked ==> s.wantToGrab || s.cam == Copied || s.cam == Raised)
    && (s.cam == Raised ==> s.ready)
    // the history
    && (forall t :: 0 <= t < |s.pc| ==> s.asked[t] <= |s.copies|)
    && (forall t :: 0 <= t < |s.pc| && Waiting(s.pc[t]) && (s.ready || s.cam == Copied) ==> s.asked[t] < |s.copies|)
    && (forall t :: 0 <= t < |s.pc| && s.pc[t] == Leaving ==> s.asked[t] < |s.copies|)
    && s.buffData == (if s.copies == [] then [] else s.copies[|s.copies| - 1])
    && (forall i :: 0 <= i < |s.copies| ==> s.copies[i] != [])
  }

  predicate ByCamera(e: Event) {
    e.Call? || e == Lock || e == Check || e == Raise || e == Notify || e == Unlock
  }

  /** Only the thread or callback that holds the mutex changes the shared state. */
  lemma ExclusiveKeeps(s: State, e: Event)
    requires Exclusive(s) && Enabled(s, e)
    ensures Exclusive(Next(s, e))
  {
  }

  lemma CameraKeeps(s: State, e: Event)
    requires Inv(s) && Enabled(s, e) && ByCamera(e)
    ensures Inv(Next(s, e))
  {
    ExclusiveKeeps(s, e);
    var r := Next(s, e);
    hide Exclusive, HoldsMutex, CamHoldsMutex;
    assert Inv(r);
  }

  /** The steps of waitForFrame that touch the flags. */
  lemma FlagKeeps(s: State, e: Event)
    requires Inv(s) && Enabled(s, e) && (e.SetWant? || e.ClearReady? || e.Test?)
    ensures Inv(Next(s, e))
  {
    ExclusiveKeeps(s, e);
    OnlyOneHolds(s);
  }

  lemma GrabberKeeps(s: State, e: Event)
    requires Inv(s) && Enabled(s, e) && !ByCamera(e)
    ensures Inv(Next(s, e))
  {
    hide Inv, Enabled, Next;
    if e.SetWant? || e.ClearReady? || e.Test? {
      FlagKeeps(s, e);
    } else {
      MoveKeeps(s, e);
    }
  }

  /** The steps of waitForFrame that only take or release the mutex, or wake up. */
  lemma MoveKeeps(s: State, e: Event)
    requires Inv(s) && Enabled(s, e) && (e.Enter? || e.Wake? || e.Relock? || e.Leave?)
    ensures Inv(Next(s, e))
  {
    ExclusiveKeeps(s, e);
    var r := Next(s, e);
    hide Exclusive, HoldsMutex, CamHoldsMutex;
    assert Inv(r);
  }

  lemma OnlyOneHolds(s: State)
    requires Exclusive(s)
    ensures forall t, u :: 0 <= t < |s.pc| && 0 <= u < |s.pc| && HoldsMutex(s.pc[t]) && HoldsMutex(s.pc[u]) ==> t == u
    ensures forall t :: 0 <= t < |s.pc| && HoldsMutex(s.pc[t]) ==> !CamHoldsMutex(s.cam)
  {
  }

  lemma StepKeeps(s: State, e: Event)
    requires Inv(s) && Enabled(s, e)
    ensures Inv(Next(s, e))
  {
    hide Inv, Next, Enabled;
    if ByCamera(e) { CameraKeeps(s, e); } else { GrabberKeeps(s, e); }
  }

  lemma {:induction false} RunKeeps(s: State, es: seq<Event>, t: State)
    requires Inv(s) && Runs(s, es, t)
    ensures Inv(t)
    decreases |es|
  {
    hide Inv, Next, Enabled;
    if es != [] {
      StepKeeps(s, es[0]);
      RunKeeps(Next(s, es[0]), es[1..], t);
    }
  }

  // ----- no lost wake-up -----

  /** In every reachable state, a waiter that has not been notified has its request standing and
      no stale `ready`, unless the callback is inside the mutex and about to notify it. */
  lemma NoLostWakeUp(init: State, es: seq<Event>, s: State, t: nat)
    requires Init(init) && Runs(init, es, s) && t < |s.pc| && s.pc[t] == Blocked
    ensures (s.wantToGrab && !s.ready) || s.cam == Copied || s.cam == Raised
    ensures s.owner != Camera ==> s.wantToGrab && !s.ready
  {
    RunKeeps(init, es, s);
  }

  /** The callback's whole critical section for one frame. */
  function Serve(frame: seq<int>): seq<Event> {
    [Call(frame), Lock, Check, Raise, Notify, Unlock]
  }

  /** When a thread waits and a nonempty frame comes in, the callback run to its end copies the
      frame, sets `ready` and leaves nobody blocked; whoever waited can then finish its grab. */
  lemma CallbackServesWaiters(s: State, frame: seq<int>, t: nat)
    requires Inv(s) && s.owner == Free && s.cam == Away && frame != []
    requires t < |s.pc| && s.pc[t] == Blocked
    ensures Runs(s, Serve(frame), Served(s, frame))
    ensures forall u :: 0 <= u < |s.pc| ==> Served(s, frame).pc[u] != Blocked
    ensures Runs(Served(s, frame), [Relock(t), Test(t), Leave(t)],
                 Served(s, frame).(pc := Served(s, frame).pc[t := Idle]))
  {
    BlockedWants(s, t);
    ServeRuns(s, frame);
    hide Runs, Inv;
    LeaveRuns(Served(s, frame), t);
  }

  /** A thread that is awake, with `ready` set and the mutex free, finishes its grab. */
  lemma LeaveRuns(s: State, t: nat)
    requires t < |s.pc| && s.pc[t] == Woken && s.ready && s.owner == Free
    ensures Runs(s, [Relock(t), Test(t), Leave(t)], s.(pc := s.pc[t := Idle]))
  {
    hide Runs;
    var s1 := s.(pc := s.pc[t := Testing], owner := Grabber(t));
    var s2 := s.(pc := s.pc[t := Leaving], owner := Grabber(t));
    var s3 := s.(pc := s.pc[t := Idle]);
    NoEvents(s3);
    Prepend(s2, Leave(t), s3, [], s3, [Leave(t)]);
    Prepend(s1, Test(t), s2, [Leave(t)], s3, [Test(t), Leave(t)]);
    Prepend(s, Relock(t), s1, [Test(t), Leave(t)], s3, [Relock(t), Test(t), Leave(t)]);
  }

  lemma BlockedWants(s: State, t: nat)
    requires Inv(s) && s.owner == Free && t < |s.pc| && s.pc[t] == Blocked
    ensures s.wantToGrab
  {
  }

  lemma NoEvents(s: State)
    ensures Runs(s, [], s)
  {
  }

  /** The state after the callback has copied a frame. */
  function Served(s: State, frame: seq<int>): State {
    s.(buffData := frame, copies := s.copies + [frame], wantToGrab := false, ready := true, pc := AllWoken(s.pc))
  }

  lemma CopyRuns(s: State, frame: seq<int>)
    requires s.owner == Free && s.cam == Away && s.wantToGrab && frame != []
    ensures Runs(s, [Call(frame), Lock, Check],
                 s.(cam := Copied, owner := Camera, buffData := frame, copies := s.copies + [frame],
                   wantToGrab := false))
  {
    hide Runs;
    var s1 := s.(cam := Called(frame));
    var s2 := s.(cam := Checking(frame), owner := Camera);
    var s3 := s2.(cam := Copied, buffData := frame, copies := s.copies + [frame], wantToGrab := false);
    NoEvents(s3);
    Prepend(s2, Check, s3, [], s3, [Check]);
    Prepend(s1, Lock, s2, [Check], s3, [Lock, Check]);
    Prepend(s, Call(frame), s1, [Lock, Check], s3, [Call(frame), Lock, Check]);
  }

  lemma WakeRuns(s: State)
    requires s.cam == Copied
    ensures Runs(s, [Raise, Notify, Unlock], s.(cam := Away, owner := Free, ready := true, pc := AllWoken(s.pc)))
  {
    hide Runs;
    var s4 := s.(cam := Raised, ready := true);
    var s5 := s4.(cam := Finishing, pc := AllWoken(s.pc));
    var s6 := s5.(cam := Away, owner := Free);
    NoEvents(s6);
    Prepend(s5, Unlock, s6, [], s6, [Unlock]);
    Prepend(s4, Notify, s5, [Unlock], s6, [Notify, Unlock]);
    Prepend(s, Raise, s4, [Notify, Unlock], s6, [Raise, Notify, Unlock]);
  }

  lemma ServeRuns(s: State, frame: seq<int>)
    requires s.owner == Free && s.cam == Away && s.wantToGrab && frame != []
    ensures Runs(s, Serve(frame), Served(s, frame))
  {
    hide Runs;
    CopyRuns(s, frame);
    var m := s.(cam := Copied, owner := Camera, buffData := frame, copies := s.copies + [frame], wantToGrab := false);
    WakeRuns(m);
    Append(s, [Call(frame), Lock, Check], m, [Raise, Notify, Unlock], Served(s, frame));
    assert [Call(frame), Lock, Check] + [Raise, Notify, Unlock] == Serve(frame);
  }

  /** An idle thread that asks while nobody holds the mutex ends up blocked with its request standing. */
  lemma AskRuns(s: State, t: nat)
    requires t < |s.pc| == |s.asked| && s.pc[t] == Idle && s.owner == Free
    ensures Runs(s, [Enter(t), SetWant(t), ClearReady(t), Test(t)],
                 s.(pc := s.pc[t := Blocked], wantToGrab := true, ready := false, asked := s.asked[t := |s.copies|]))
  {
    hide Runs;
    var s1 := s.(pc := s.pc[t := Entered], owner := Grabber(t));
    var s2 := s1.(pc := s.pc[t := Requested], wantToGrab := true, asked := s.asked[t := |s.copies|]);
    var s3 := s2.(pc := s.pc[t := Testing], ready := false);
    var s4 := s3.(pc := s.pc[t := Blocked], owner := Free);
    NoEvents(s4);
    Prepend(s3, Test(t), s4, [], s4, [Test(t)]);
    Prepend(s2, ClearReady(t), s3, [Test(t)], s4, [ClearReady(t), Test(t)]);
    Prepend(s1, SetWant(t), s2, [ClearReady(t), Test(t)], s4, [SetWant(t), ClearReady(t), Test(t)]);
    Prepend(s, Enter(t), s1, [SetWant(t), ClearReady(t), Test(t)], s4, [Enter(t), SetWant(t), ClearReady(t), Test(t)]);
  }

  lemma {:induction false} Append(s: State, a: seq<Event>, m: State, b: seq<Event>, t: State)
    requires Runs(s, a, m) && Runs(m, b, t)
    ensures Runs(s, a + b, t)
    decreases |a|
  {
    if a == [] {
      assert a + b == b;
    } else {
      Append(Next(s, a[0]), a[1..], m, b, t);
      assert (a + b)[1..] == a[1..] + b;
    }
  }

  lemma Prepend(s: State, e: Event, s1: State, es: seq<Event>, t: State, all: seq<Event>)
    requires Enabled(s, e) && Next(s, e) == s1 && Runs(s1, es, t)
    requires all == [e] + es
    ensures Runs(s, all, t)
  {
    assert all[1..] == es;
  }

  // ----- fresh frames -----

  lemma {:induction false} AskedStays(s: State, es: seq<Event>, u: State, t: nat)
    requires Runs(s, es, u) && SetWant(t) !in es && t < |s.asked| == |s.pc|
    ensures |u.asked| == |s.asked| == |u.pc| && u.asked[t] == s.asked[t]
    decreases |es|
  {
    if es != [] {
      AskedStays(Next(s, es[0]), es[1..], u, t);
    }
  }

  /** A grab that completes has seen a nonempty frame that was copied after its request, whatever
      the other threads, the callback and spurious wake-ups did in between. */
  lemma GrabIsFresh(s: State, es: seq<Event>, u: State, t: nat)
    requires Inv(s) && Enabled(s, SetWant(t)) && Runs(Next(s, SetWant(t)), es, u)
    requires SetWant(t) !in es && Enabled(u, Leave(t))
    ensures |u.copies| > |s.copies|
    ensures u.buffData != [] && u.buffData == u.copies[|u.copies| - 1]
  {
    var r := Next(s, SetWant(t));
    StepKeeps(s, SetWant(t));
    RunKeeps(r, es, u);
    AskedStays(r, es, u, t);
  }

  // ----- one grabbing thread -----

  /** With a single grabber, a request stands only while that thread waits for it. */
  ghost predicate SoleInv(s: State) {
    && Inv(s) && |s.pc| == 1
    && (s.wantToGrab ==> s.pc[0] == Requested || Waiting(s.pc[0]))
    && (Waiting(s.pc[0]) && s.wantToGrab ==> !s.ready && |s.copies| == s.asked[0])
    && (Waiting(s.pc[0]) && !s.wantToGrab ==> |s.copies| == s.asked[0] + 1)
    && (s.pc[0] == Leaving ==> |s.copies| == s.asked[0] + 1)
    && (s.pc[0] == Requested ==> |s.copies| == s.asked[0])
    && (s.cam == Copied || s.cam == Raised ==> !s.wantToGrab)
  }

  lemma SoleStepKeeps(s: State, e: Event)
    requires SoleInv(s) && Enabled(s, e)
    ensures SoleInv(Next(s, e))
  {
    StepKeeps(s, e);
  }

  lemma {:induction false} SoleRunKeeps(s: State, es: seq<Event>, t: State)
    requires SoleInv(s) && Runs(s, es, t)
    ensures SoleInv(t)
    decreases |es|
  {
    hide SoleInv, Next, Enabled;
    if es != [] {
      SoleStepKeeps(s, es[0]);
      SoleRunKeeps(Next(s, es[0]), es[1..], t);
    }
  }

  /** With a single grabber, from the end of a grab until the thread asks again the buffer is not
      written, so reading it without the mutex is safe. */
  lemma {:induction false} FrozenBetweenGrabs(s: State, es: seq<Event>, u: State)
    requires SoleInv(s) && Runs(s, es, u) && SetWant(0) !in es
    requires s.pc[0] == Idle || s.pc[0] == Entered || s.pc[0] == Leaving
    ensures u.buffData == s.buffData && u.copies == s.copies
    decreases |es|
  {
    if es != [] {
      var r := Next(s, es[0]);
      SoleStepKeeps(s, es[0]);
      if r.pc[0] == Idle || r.pc[0] == Entered || r.pc[0] == Leaving {
        FrozenBetweenGrabs(r, es[1..], u);
      }
    }
  }

  /** ... and the grab returned exactly the first frame copied after the request. */
  lemma GrabReturnsFirstFrame(s: State, es: seq<Event>, u: State)
    requires SoleInv(s) && Enabled(s, SetWant(0)) && Runs(Next(s, SetWant(0)), es, u)
    requires SetWant(0) !in es && Enabled(u, Leave(0))
    ensures |u.copies| == |s.copies| + 1 && u.buffData == u.copies[|s.copies|]
  {
    var r := Next(s, SetWant(0));
    SoleStepKeeps(s, SetWant(0));
    SoleRunKeeps(r, es, u);
    AskedStays(r, es, u, 0);
  }

  // ----- more than one grabbing thread -----

  lemma InitHolds(s: State)
    requires Init(s)
    ensures Inv(s) && (|s.pc| == 1 ==> SoleInv(s))
  {
  }

  lemma {:induction false} RunSize(s: State, es: seq<Event>, t: State)
    requires Runs(s, es, t)
    ensures |t.pc| == |s.pc|
    decreases |es|
  {
    if es != [] {
      RunSize(Next(s, es[0]), es[1..], t);
    }
  }

  /** The invariants hold in every state that the handshake reaches. */
  lemma Reachable(init: State, es: seq<Event>, s: State)
    requires Init(init) && Runs(init, es, s)
    ensures Inv(s) && (|s.pc| == 1 ==> SoleInv(s))
  {
    hide Runs, Inv, SoleInv;
    InitHolds(init);
    RunKeeps(init, es, s);
    RunSize(init, es, s);
    if |s.pc| == 1 {
      SoleRunKeeps(init, es, s);
    }
  }

  /** While thread `g` is outside waitForFrame and does not ask, some run puts `frame` in the buffer. */
  ghost predicate CanOverwrite(s: State, g: nat, frame: seq<int>) {
    exists es, u :: Runs(s, es, u) && SetWant(g) !in es && Enter(g) !in es && u.buffData == frame
  }

  /** In such a run the thread stays outside. */
  lemma {:induction false} StaysOutside(s: State, es: seq<Event>, u: State, g: nat)
    requires Runs(s, es, u) && Enter(g) !in es && g < |s.pc| && s.pc[g] == Idle
    ensures g < |u.pc| && u.pc[g] == Idle
    decreases |es|
  {
    if es != [] {
      StaysOutside(Next(s, es[0]), es[1..], u, g);
    }
  }

  lemma OverwrittenBy(s: State, g: nat, es: seq<Event>, m: State, frame: seq<int>)
    requires Runs(s, es, m) && SetWant(g) !in es && Enter(g) !in es && CanOverwrite(m, g, frame)
    ensures CanOverwrite(s, g, frame)
  {
    var rest, u :| Runs(m, rest, u) && SetWant(g) !in rest && Enter(g) !in rest && u.buffData == frame;
    Append(s, es, m, rest, u);
  }

  /** A standing request is enough. */
  lemma WantedOverwrites(s: State, g: nat, frame: seq<int>)
    requires s.owner == Free && s.cam == Away && s.wantToGrab && frame != []
    ensures CanOverwrite(s, g, frame)
  {
    ServeRuns(s, frame);
    assert SetWant(g) !in Serve(frame) && Enter(g) !in Serve(frame);
  }

  /** So is another idle thread, which can ask. */
  lemma IdleOverwrites(s: State, g: nat, t: nat, frame: seq<int>)
    requires s.owner == Free && s.cam == Away && frame != []
    requires g != t && t < |s.pc| == |s.asked| && s.pc[t] == Idle
    ensures CanOverwrite(s, g, frame)
  {
    hide Runs, CanOverwrite;
    AskRuns(s, t);
    var m := s.(pc := s.pc[t := Blocked], wantToGrab := true, ready := false, asked := s.asked[t := |s.copies|]);
    WantedOverwrites(m, g, frame);
    OverwrittenBy(s, g, [Enter(t), SetWant(t), ClearReady(t), Test(t)], m, frame);
  }

  /** With a second grabber `t`, wherever it is, the buffer is not frozen: while thread `g` is back from
      its grab, the callback can overwrite the frame that thread `g` is reading. */
  lemma SecondGrabberOverwrites(s: State, g: nat, t: nat, frame: seq<int>)
    requires Inv(s) && s.owner == Free && s.cam == Away && frame != []
    requires g < |s.pc| && t < |s.pc| && g != t
    ensures CanOverwrite(s, g, frame)
  {
    hide Runs, CanOverwrite;
    if s.wantToGrab {
      WantedOverwrites(s, g, frame);
    } else if s.pc[t] == Idle {
      IdleOverwrites(s, g, t, frame);
    } else {
      assert s.pc[t] == Woken && s.ready;
      LeaveRuns(s, t);
      var m := s.(pc := s.pc[t := Idle]);
      IdleOverwrites(m, g, t, frame);
      OverwrittenBy(s, g, [Relock(t), Test(t), Leave(t)], m, frame);
    }
  }

  /** Until thread `g` asks again, no run changes the buffer. */
  ghost predicate Frozen(s: State, g: nat) {
    forall es, u :: Runs(s, es, u) && SetWant(g) !in es ==> u.buffData == s.buffData
  }

  /** In every reachable state in which the mutex is free, no callback runs and thread `g` is back from its
      grab, its frame stays in the buffer until it asks again if and only if no other thread grabs. */
  lemma FrozenIffAlone(init: State, es: seq<Event>, s: State, g: nat)
    requires Init(init) && Runs(init, es, s)
    requires g < |s.pc| && s.pc[g] == Idle && s.owner == Free && s.cam == Away
    ensures Frozen(s, g) <==> |s.pc| == 1
  {
    hide Runs, Inv, SoleInv;
    Reachable(init, es, s);
    if |s.pc| == 1 {
      forall more, u | Runs(s, more, u) && SetWant(g) !in more
        ensures u.buffData == s.buffData
      {
        FrozenBetweenGrabs(s, more, u);
      }
    } else {
      var frame := if s.buffData == [0] then [1] else [0];
      SecondGrabberOverwrites(s, g, if g == 0 then 1 else 0, frame);
    }
  }
}
