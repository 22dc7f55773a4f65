/**
  Workers that run in parallel and write into one shared array (bg_sub_par.cpp:48-86,
  blur_par.cpp:70-102). Worker k has a list of indices to write, in its program order; what it writes
  at an index depends on that index alone, because the workers' inputs are not written by any of them.
  A schedule names, turn by turn, the worker that carries out its next write.
 */
module Workers {
  import CInt

  datatype State = State(res: seq<int>, todo: seq<seq<nat>>)

  predicate InBounds(s: State) {
    forall k :: 0 <= k < |s.todo| ==> forall i :: 0 <= i < |s.todo[k]| ==> s.todo[k][i] < |s.res|
  }

  ghost predicate Assigned(todo: seq<seq<nat>>, q: nat) {
    exists k :: 0 <= k < |todo| && q in todo[k]
  }

  function Step(s: State, k: nat, f: nat -> int): State
    requires InBounds(s)
  {
    if k < |s.todo| && s.todo[k] != [] then
      State(s.res[s.todo[k][0] := f(s.todo[k][0])], s.todo[k := s.todo[k][1..]])
    else s
  }

  lemma StepInBounds(s: State, k: nat, f: nat -> int)
    requires InBounds(s)
    ensures InBounds(Step(s, k, f))
  {
  }

  function Run(s: State, schedule: seq<nat>, f: nat -> int): State
    requires InBounds(s)
    decreases |schedule|
  {
    if schedule == [] then s
    else
      StepInBounds(s, schedule[0], f);
      Run(Step(s, schedule[0], f), schedule[1..], f)
  }

  predicate Finished(s: State) {
    forall k :: 0 <= k < |s.todo| ==> s.todo[k] == []
  }

  /** What a state can look like between the workers' start and their end: an index nobody is to write
      is untouched, one that nobody has left to write is final, and any other is one or the other. */
  ghost predicate Between(start: State, s: State, f: nat -> int) {
    && |s.res| == |start.res| && |s.todo| == |start.todo| && InBounds(s)
    && forall q: nat :: q < |s.res| ==>
      && (Assigned(s.todo, q) ==> Assigned(start.todo, q))
      && (!Assigned(start.todo, q) ==> s.res[q] == start.res[q])
      && (Assigned(start.todo, q) && !Assigned(s.todo, q) ==> s.res[q] == f(q))
      && (s.res[q] == start.res[q] || s.res[q] == f(q))
  }

  /** Whether an index is still assigned after a worker's write. */
  lemma PopAssigned(todo: seq<seq<nat>>, k: nat, q: nat)
    requires k < |todo| && todo[k] != []
    ensures Assigned(todo[k := todo[k][1..]], q) ==> Assigned(todo, q)
    ensures Assigned(todo, q) && q != todo[k][0] ==> Assigned(todo[k := todo[k][1..]], q)
    ensures Assigned(todo, todo[k][0])
  {
    var rest := todo[k := todo[k][1..]];
    if Assigned(rest, q) {
      var j :| 0 <= j < |rest| && q in rest[j];
      assert q in todo[j];
    }
    if Assigned(todo, q) && q != todo[k][0] {
      var j :| 0 <= j < |todo| && q in todo[j];
      assert q in rest[j];
    }
  }

  lemma StepBetween(start: State, s: State, k: nat, f: nat -> int)
    requires Between(start, s, f)
    ensures Between(start, Step(s, k, f), f)
  {
    StepInBounds(s, k, f);
    if k < |s.todo| && s.todo[k] != [] {
      hide Assigned;
      var t := Step(s, k, f);
      forall q: nat | q < |s.res|
        ensures Assigned(t.todo, q) ==> Assigned(start.todo, q)
        ensures !Assigned(start.todo, q) ==> t.res[q] == start.res[q]
        ensures Assigned(start.todo, q) && !Assigned(t.todo, q) ==> t.res[q] == f(q)
        ensures t.res[q] == start.res[q] || t.res[q] == f(q)
      {
        PopAssigned(s.todo, k, q);
      }
    }
  }

  /** Every interleaving keeps the array between its old and its new contents. */
  lemma {:induction false} AnySchedule(start: State, s: State, schedule: seq<nat>, f: nat -> int)
    requires Between(start, s, f)
    ensures Between(start, Run(s, schedule, f), f)
    decreases |schedule|
  {
    hide Between;
    if schedule != [] {
      BetweenInBounds(start, s, f);
      StepBetween(start, s, schedule[0], f);
      AnySchedule(start, Step(s, schedule[0], f), schedule[1..], f);
    }
  }

  lemma BetweenInBounds(start: State, s: State, f: nat -> int)
    requires Between(start, s, f)
    ensures InBounds(s)
  {
  }

  /** A turn of worker j takes the first index off its own list. */
  lemma OneTurn(s: State, j: nat, f: nat -> int, k: nat)
    requires InBounds(s) && k < |s.todo|
    ensures
      var t := Step(s, j, f);
      |t.todo| == |s.todo| && t.todo[k] == if j == k && s.todo[k] != [] then s.todo[k][1..] else s.todo[k]
  {
  }

  lemma CountFirst(schedule: seq<nat>, k: nat)
    requires schedule != []
    ensures multiset(schedule)[k] == multiset(schedule[1..])[k] + if schedule[0] == k then 1 else 0
  {
    assert schedule == [schedule[0]] + schedule[1..];
  }

  /** How far worker k gets is decided by the number of its turns alone. */
  lemma {:induction false} TurnsCount(s: State, schedule: seq<nat>, f: nat -> int, k: nat)
    requires InBounds(s) && k < |s.todo|
    ensures
      var t := Run(s, schedule, f);
      |t.todo| == |s.todo| && t.todo[k] == s.todo[k][CInt.Min(multiset(schedule)[k], |s.todo[k]|)..]
    decreases |schedule|
  {
    if schedule != [] {
      CountFirst(schedule, k);
      OneTurn(s, schedule[0], f, k);
      StepInBounds(s, schedule[0], f);
      hide Step, InBounds;
      TurnsCount(Step(s, schedule[0], f), schedule[1..], f, k);
    }
  }

  /** Every schedule that gives each worker enough turns leaves the same array: what the worker's
      function says at every assigned index, and the old contents everywhere else. */
  lemma AllSchedulesAgree(start: State, schedule: seq<nat>, f: nat -> int)
    requires InBounds(start)
    requires forall k :: 0 <= k < |start.todo| ==> multiset(schedule)[k] >= |start.todo[k]|
    ensures Finished(Run(start, schedule, f)) && |Run(start, schedule, f).res| == |start.res|
    ensures forall q: nat :: q < |start.res| ==>
      Run(start, schedule, f).res[q] == if Assigned(start.todo, q) then f(q) else start.res[q]
  {
    var t := Run(start, schedule, f);
    AnySchedule(start, start, schedule, f);
    forall k | 0 <= k < |t.todo|
      ensures t.todo[k] == []
    {
      TurnsCount(start, schedule, f, k);
    }
  }

  /** The indices below `n` that satisfy `p`, in ascending order. */
  function Ascending(n: nat, p: nat -> bool): seq<nat> {
    if n == 0 then [] else Ascending(n - 1, p) + if p(n - 1) then [n - 1] else []
  }

  lemma {:induction false} AscendingMembers(n: nat, p: nat -> bool)
    ensures forall q: nat :: q in Ascending(n, p) <==> q < n && p(q)
    ensures forall i, j :: 0 <= i < j < |Ascending(n, p)| ==> Ascending(n, p)[i] < Ascending(n, p)[j]
    ensures forall i :: 0 <= i < |Ascending(n, p)| ==> Ascending(n, p)[i] < n
  {
    if n > 0 {
      AscendingMembers(n - 1, p);
    }
  }
}
