/** The bounded event queue between the HAL callback threads and the controller
    loop: a ring over a fixed array whose indices are 32-bit.  Each method is one
    critical section of the queue's mutex. */
module EventQueue {

  newtype uint32 = x: int | 0 <= x < 0x1_0000_0000

  // ------------------------------------------------------------ the FIFO the ring refines

  /** A push keeps the order and discards the newcomer when the queue is full. */
  function Pushed<E>(q: seq<E>, capacity: nat, e: E): seq<E>
  {
    if |q| < capacity then q + [e] else q
  }

  /** A pop takes the oldest event. */
  function Popped<E>(q: seq<E>): seq<E> { if q == [] then [] else q[1..] }

  // ------------------------------------------------------------ index arithmetic

  /** The slot that position x of the unrolled ring falls in, for at most one wrap. */
  function Slot(x: nat, c: nat): nat
  {
    if x < c then x else x - c
  }

  /** The index expression x % c, as in (head + 1) % capacity, is Slot. */
  lemma ModIsSlot(x: nat, c: nat)
    requires 0 < c && x < 2 * c
    ensures x % c == Slot(x, c)
  {
    var q, r := x / c, x % c;
    assert x == c * q + r && 0 <= r < c;
    assert q < 2 by {
      assert q >= 2 ==> c * q >= c * 2;
    }
  }

  // ------------------------------------------------------------ the ring

  class Queue<E(0)> {
    const capacity: uint32
    const events: array<E>
    var head: uint32   // write position
    var tail: uint32   // read position
    var count: uint32

    ghost predicate Valid()
      reads this
    {
      && events.Length == capacity as int
      && 0 < capacity
      && tail < capacity
      && count <= capacity
      && head as int == Slot(tail as int + count as int, capacity as int)
    }

    /** The queued events, oldest first. */
    ghost function Contents(): (s: seq<E>)
      requires Valid()
      reads this, events
      ensures |s| == count as int
      ensures forall i | 0 <= i < |s| :: s[i] == events[Slot(tail as int + i, events.Length)]
    {
      seq(count as int, i requires Valid() && 0 <= i < count as int reads this, events =>
        events[Slot(tail as int + i, events.Length)])
    }

    constructor Allocated(capacity: uint32)
      requires 0 < capacity
      ensures Valid() && fresh(events)
      ensures this.capacity == capacity && Contents() == []
    {
      this.capacity := capacity;
      events := new E[capacity];
      head, tail, count := 0, 0, 0;
    }

    /** Initialisation fails on capacity zero or when memory or mutex creation fails. */
    static method Init(capacity: uint32, resources: bool) returns (q: Queue?<E>)
      ensures q == null <==> capacity == 0 || !resources
      ensures q != null ==> fresh(q) && fresh(q.events) && q.Valid()
      ensures q != null ==> q.capacity == capacity && q.Contents() == []
    {
      if capacity == 0 || !resources { return null; }
      q := new Queue<E>.Allocated(capacity);
    }

    /** Appends the event, or reports failure and changes nothing when full.
        The 32-bit additions are checked never to wrap. */
    method Push(e: E) returns (ok: bool)
      requires Valid()
      modifies this, events
      ensures Valid()
      ensures ok <==> |old(Contents())| < capacity as int
      ensures Contents() == Pushed(old(Contents()), capacity as int, e)
    {
      if count >= capacity { return false; }
      ModIsSlot(head as int + 1, capacity as int);
      events[head] := e;
      head := (head + 1) % capacity;
      count := count + 1;
      assert forall i | 0 <= i < count as int - 1 :: Contents()[i] == old(Contents())[i];
      assert Contents()[count as int - 1] == e;
      assert Contents() == old(Contents()) + [e];
      ok := true;
    }

    /** Removes and returns the oldest event, or nothing when empty. */
    method Pop() returns (ok: bool, e: E)
      requires Valid()
      modifies this
      ensures Valid()
      ensures ok <==> old(Contents()) != []
      ensures ok ==> e == old(Contents())[0]
      ensures Contents() == Popped(old(Contents()))
    {
      e := events[tail];
      assert count > 0 ==> Contents()[0] == e;
      if count == 0 { return false, e; }
      ModIsSlot(tail as int + 1, capacity as int);
      tail := (tail + 1) % capacity;
      count := count - 1;
      assert forall i | 0 <= i < count as int :: Contents()[i] == old(Contents())[i + 1];
      assert Contents() == old(Contents())[1..];
      ok := true;
    }

    /** The write position is determined by the read position and the count. */
    lemma HeadFromTail()
      requires Valid()
      ensures head as int == (tail as int + count as int) % capacity as int
    {
      ModIsSlot(tail as int + count as int, capacity as int);
    }

    /** Size, emptiness and fullness are those of the abstract queue. */
    method Size() returns (n: uint32, empty: bool, full: bool)
      requires Valid()
      ensures n as int == |Contents()|
      ensures empty <==> Contents() == []
      ensures full <==> |Contents()| == capacity as int
    {
      n, empty, full := count, count == 0, count >= capacity;
    }
  }

  // ------------------------------------------------------------ runs of the queue

  datatype Op<E> = Push(e: E) | Pop

  /** The queue after a run of pushes and pops. */
  function Run<E>(capacity: nat, ops: seq<Op<E>>): seq<E>
  {
    if ops == [] then []
    else
      var q := Run(capacity, ops[..|ops| - 1]);
      match ops[|ops| - 1]
      case Push(e) => Pushed(q, capacity, e)
      case Pop => Popped(q)
  }

  /** The events a run accepted: those pushed while there was room. */
  function Accepted<E>(capacity: nat, ops: seq<Op<E>>): seq<E>
  {
    if ops == [] then []
    else
      var front := ops[..|ops| - 1];
      var last := ops[|ops| - 1];
      Accepted(capacity, front) + if last.Push? && |Run(capacity, front)| < capacity then [last.e] else []
  }

  /** The events a run delivered, in order of delivery. */
  function Delivered<E>(capacity: nat, ops: seq<Op<E>>): seq<E>
  {
    if ops == [] then []
    else
      var front := ops[..|ops| - 1];
      var q := Run(capacity, front);
      Delivered(capacity, front) + if ops[|ops| - 1].Pop? && q != [] then [q[0]] else []
  }

  /** Every accepted event is delivered or still queued, in order of acceptance. */
  lemma {:induction false} AcceptedIsDeliveredThenQueued<E>(capacity: nat, ops: seq<Op<E>>)
    ensures Accepted(capacity, ops) == Delivered(capacity, ops) + Run(capacity, ops)
    ensures |Run(capacity, ops)| <= capacity
  {
    if ops != [] {
      var front := ops[..|ops| - 1];
      AcceptedIsDeliveredThenQueued(capacity, front);
      var before, q := Delivered(capacity, front), Run(capacity, front);
      match ops[|ops| - 1]
      case Push(e) => assert before + (q + [e]) == before + q + [e];
      case Pop => assert q != [] ==> before + q == before + [q[0]] + q[1..];
    }
  }
}
