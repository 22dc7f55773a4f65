/**
  The fixed pool of event slots of the clock component (clock.c:677-712, 868-869): slots move
  between a free list and a queue, both first in, first out.
 */
module ClockEvents {
  import opened Mmal

  const MAX_CLOCK_EVENT_SLOTS := 16

  /** MMAL status codes returned by the two operations. */
  datatype Status = Success | NoSpace | Invalid

  /** Slot numbers in the two lists, and what the slots hold. */
  datatype Slots<T> = Slots(free: seq<nat>, queue: seq<nat>, pool: seq<T>)

  /** The events accepted and not yet taken out, oldest first. */
  function Pending<T>(s: Slots<T>): (r: seq<T>)
    requires forall i :: 0 <= i < |s.queue| ==> s.queue[i] < |s.pool|
    ensures |r| == |s.queue|
    decreases |s.queue|
  {
    if s.queue == [] then []
    else Pending(s.(queue := s.queue[..|s.queue| - 1])) + [s.pool[s.queue[|s.queue| - 1]]]
  }

  /** The slots 0 to n - 1. */
  function FirstSlots(n: nat): (r: seq<nat>)
    ensures |r| == n
  {
    if n == 0 then [] else FirstSlots(n - 1) + [n - 1]
  }

  lemma {:induction false} FirstSlotsOnce(n: nat)
    ensures forall x: nat :: multiset(FirstSlots(n))[x] == if x < n then 1 else 0
  {
    if n > 0 {
      FirstSlotsOnce(n - 1);
    }
  }

  /** Every slot is in exactly one of the lists, once. */
  ghost predicate Partition(free: seq<nat>, queue: seq<nat>) {
    multiset(free) + multiset(queue) == multiset(FirstSlots(MAX_CLOCK_EVENT_SLOTS))
  }

  lemma SlotInRange(free: seq<nat>, queue: seq<nat>)
    requires Partition(free, queue)
    ensures forall i :: 0 <= i < |queue| ==> queue[i] < MAX_CLOCK_EVENT_SLOTS
    ensures forall i :: 0 <= i < |free| ==> free[i] < MAX_CLOCK_EVENT_SLOTS
    ensures forall i, j :: 0 <= i < |free| && 0 <= j < |queue| ==> free[i] != queue[j]
    ensures |free| + |queue| == MAX_CLOCK_EVENT_SLOTS
  {
    hide FirstSlots;
    FirstSlotsOnce(MAX_CLOCK_EVENT_SLOTS);
    var all := multiset(free) + multiset(queue);
    assert |all| == |free| + |queue|;
    forall i | 0 <= i < |queue|
      ensures queue[i] < MAX_CLOCK_EVENT_SLOTS && queue[i] !in free
    {
      assert multiset(queue)[queue[i]] >= 1;
      assert all[queue[i]] >= 1;
    }
    forall i | 0 <= i < |free|
      ensures free[i] < MAX_CLOCK_EVENT_SLOTS
    {
      assert multiset(free)[free[i]] >= 1;
      assert all[free[i]] >= 1;
    }
  }

  lemma StartPartition()
    ensures Partition(FirstSlots(MAX_CLOCK_EVENT_SLOTS), [])
  {
    hide FirstSlots;
  }

  /** Moving the first slot of one list to the end of the other keeps the partition. */
  lemma MoveKeepsPartition(from: seq<nat>, to: seq<nat>)
    requires from != []
    ensures Partition(from, to) ==> Partition(from[1..], to + [from[0]])
    ensures Partition(to, from) ==> Partition(to + [from[0]], from[1..])
  {
    hide FirstSlots;
    assert from == [from[0]] + from[1..];
    assert multiset(from[1..]) + multiset(to + [from[0]]) == multiset(from) + multiset(to);
  }

  /** Writing a slot that is not queued does not disturb the pending events. */
  lemma {:induction false} PendingFrame<T>(s: Slots<T>, t: Slots<T>)
    requires s.queue == t.queue && |s.pool| == |t.pool|
    requires forall i :: 0 <= i < |s.queue| ==> s.queue[i] < |s.pool| && s.pool[s.queue[i]] == t.pool[s.queue[i]]
    ensures Pending(s) == Pending(t)
    decreases |s.queue|
  {
    if s.queue != [] {
      var n := |s.queue| - 1;
      PendingFrame(s.(queue := s.queue[..n]), t.(queue := t.queue[..n]));
    }
  }

  lemma {:induction false} PendingHead<T>(s: Slots<T>)
    requires s.queue != [] && forall i :: 0 <= i < |s.queue| ==> s.queue[i] < |s.pool|
    ensures Pending(s) == [s.pool[s.queue[0]]] + Pending(s.(queue := s.queue[1..]))
    decreases |s.queue|
  {
    var n := |s.queue| - 1;
    if n > 0 {
      PendingHead(s.(queue := s.queue[..n]));
      assert s.queue[..n][1..] == s.queue[1..][..n - 1];
    } else {
      assert s.queue[1..] == [] && s.queue[..0] == [];
    }
  }

  /** What a slot holds: the event with its clock port, and the buffer header it came in, if any. */
  datatype PortEvent<T> = PortEvent(port: nat, data: T, buffer: Option<nat>)

  /** The headers of some events with the ports they belong to. */
  function Buffers<T>(events: seq<PortEvent<T>>): seq<(nat, nat)> {
    if events == [] then []
    else
      var last := events[|events| - 1];
      Buffers(events[..|events| - 1]) + if last.buffer.Some? then [(last.port, last.buffer.value)] else []
  }

  class EventQueue<T> {
    var free: seq<nat>
    var queue: seq<nat>
    const pool: array<PortEvent<T>>
    var returned: seq<(nat, nat)>          // the headers given back to their ports
    ghost var taken: seq<PortEvent<T>>     // the events taken out so far

    /** Each slot is in one list, and exactly the headers of the events taken out have been given back. */
    ghost predicate Valid()
      reads this
    {
      pool.Length == MAX_CLOCK_EVENT_SLOTS && Partition(free, queue) && returned == Buffers(taken)
    }

    ghost function Events(): (r: seq<PortEvent<T>>)
      requires Valid()
      reads this, pool
      ensures |r| == |queue|
    {
      SlotInRange(free, queue);
      Pending(Slots(free, queue, pool[..]))
    }

    constructor (blank: PortEvent<T>)
      ensures Valid() && Events() == [] && taken == [] && fresh(pool)
    {
      hide FirstSlots;
      StartPartition();
      free := FirstSlots(MAX_CLOCK_EVENT_SLOTS);
      queue, returned, taken := [], [], [];
      pool := new PortEvent<T>[MAX_CLOCK_EVENT_SLOTS](_ => blank);
      new;
    }

    /** Accept an event unless all sixteen slots are taken. A refused event's header is not given back. */
    method Enqueue(event: PortEvent<T>) returns (status: Status)
      requires Valid()
      modifies this, pool
      ensures Valid() && taken == old(taken)
      ensures status == if |old(Events())| == 16 then NoSpace else Success
      ensures Events() == if status == Success then old(Events()) + [event] else old(Events())
    {
      hide Partition;
      hide Buffers;
      SlotInRange(free, queue);
      if free == [] { return NoSpace; }
      ghost var before := Slots(free, queue, pool[..]);
      var slot := free[0];
      MoveKeepsPartition(free, queue);
      free := free[1..];
      pool[slot] := event;
      PendingFrame(before, Slots(free, before.queue, pool[..]));
      queue := queue + [slot];
      assert queue[..|queue| - 1] == before.queue;
      SlotInRange(free, queue);
      return Success;
    }

    /** Take out the oldest event; its slot becomes free and its header goes back to its port. */
    method Dequeue() returns (status: Status, event: PortEvent<T>)
      requires Valid()
      modifies this
      ensures Valid()
      ensures status == if old(Events()) == [] then Invalid else Success
      ensures status == Success ==>
        event == old(Events())[0] && Events() == old(Events())[1..] && taken == old(taken) + [event]
      ensures status == Success ==>
        returned == old(returned) + if event.buffer.Some? then [(event.port, event.buffer.value)] else []
      ensures status == Invalid ==> Events() == old(Events()) && taken == old(taken)
    {
      hide Partition;
      SlotInRange(free, queue);
      if queue == [] {
        return Invalid, pool[0];
      }
      ghost var before := Slots(free, queue, pool[..]);
      PendingHead(before);
      var slot := queue[0];
      MoveKeepsPartition(queue, free);
      queue := queue[1..];
      event := pool[slot];
      free := free + [slot];
      SlotInRange(free, queue);
      PendingFrame(before.(queue := queue), Slots(free, queue, pool[..]));
      assert (taken + [event])[..|taken|] == taken;
      taken := taken + [event];
      if event.buffer.Some? {
        returned := returned + [(event.port, event.buffer.value)];
      }
      status := Success;
    }
  }
}
