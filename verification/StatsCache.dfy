/** The TTL cache in front of the HAL statistics: the getter, invalidation, and a
    bound on how often readers reach the HAL. */
module StatsCache {
  import opened CText

  /** One cached statistics record: the buffer the HAL fills, when, and whether it counts. */
  datatype Entry<S> = Entry(data: S, timestamp: int, valid: bool)

  /** Not expired: stamped, not in the future, and younger than the TTL. */
  predicate IsFresh(timestamp: int, now: int, ttl: nat)
  {
    timestamp != 0 && 0 <= now - timestamp < ttl
  }

  predicate Hit<S>(e: Entry<S>, now: int, ttl: nat) { e.valid && IsFresh(e.timestamp, now, ttl) }

  /** What one read asks of the outside: the clock at the check, the HAL's answer
      (nothing on failure, and then the buffer is left as it was) and the clock
      when the answer is stamped. */
  datatype Reading<S> = Reading(now: int, hal: Option<S>, stamp: int)

  function AfterRead<S>(e: Entry<S>, ttl: nat, r: Reading<S>): Entry<S>
  {
    if Hit(e, r.now, ttl) || r.hal.None? then e else Entry(r.hal.value, r.stamp, true)
  }

  /** A hit serves the buffer, a miss what the HAL delivers. */
  function Served<S>(e: Entry<S>, ttl: nat, r: Reading<S>): Option<S>
  {
    if Hit(e, r.now, ttl) then Some(e.data) else r.hal
  }

  function Invalidated<S>(e: Entry<S>): Entry<S> { e.(valid := false, timestamp := 0) }

  class Cache<S> {
    const ttl: nat
    var data: S
    var timestamp: int
    var valid: bool

    function Contents(): Entry<S>
      reads this
    {
      Entry(data, timestamp, valid)
    }

    constructor (ttl: nat, zero: S)
      ensures this.ttl == ttl && Contents() == Entry(zero, 0, false)
    {
      this.ttl := ttl;
      data, timestamp, valid := zero, 0, false;
    }

    /** The getter: what it returns is never older than the TTL, however the clock moves. */
    method Get(r: Reading<S>) returns (s: Option<S>)
      modifies this
      ensures Contents() == AfterRead(old(Contents()), ttl, r)
      ensures s == Served(old(Contents()), ttl, r)
      ensures s.Some? ==> || (s == r.hal && timestamp == r.stamp)
                          || (s == Some(old(data)) && 0 <= r.now - old(timestamp) < ttl)
      ensures var hit := old(valid) && old(timestamp) != 0 && 0 <= r.now - old(timestamp) < ttl;
              && s == (if hit then Some(old(data)) else r.hal)
              && Contents() == if hit || r.hal.None? then old(Contents()) else Entry(r.hal.value, r.stamp, true)
    {
      if valid && IsFresh(timestamp, r.now, ttl) { return Some(data); }
      match r.hal {
        case Some(delivered) =>
          data := delivered;
          timestamp := r.stamp;
          valid := true;
          s := Some(data);
        case None => s := None;
      }
    }

    method Invalidate()
      modifies this
      ensures Contents() == Invalidated(old(Contents()))
      ensures !valid && timestamp == 0 && data == old(data)
    {
      valid := false;
      timestamp := 0;
    }
  }

  // ------------------------------------------------------------ load on the HAL

  datatype Op<S> = Read(reading: Reading<S>) | Invalidate

  function After<S>(e: Entry<S>, ttl: nat, op: Op<S>): Entry<S>
  {
    match op
    case Read(r) => AfterRead(e, ttl, r)
    case Invalidate => Invalidated(e)
  }

  function Run<S>(e: Entry<S>, ttl: nat, ops: seq<Op<S>>): Entry<S>
  {
    if ops == [] then e else After(Run(e, ttl, ops[..|ops| - 1]), ttl, ops[|ops| - 1])
  }

  predicate Refreshes<S>(e: Entry<S>, ttl: nat, op: Op<S>)
  {
    op.Read? && !Hit(e, op.reading.now, ttl) && op.reading.hal.Some?
  }

  /** The number of successful refreshes stamped in [a, b]. */
  function RefreshCount<S>(e: Entry<S>, ttl: nat, ops: seq<Op<S>>, a: int, b: int): nat
  {
    if ops == [] then 0
    else
      var front, last := ops[..|ops| - 1], ops[|ops| - 1];
      RefreshCount(e, ttl, front, a, b)
      + if Refreshes(Run(e, ttl, front), ttl, last) && a <= last.reading.stamp <= b then 1 else 0
  }

  function Invalidations<S>(ops: seq<Op<S>>): nat
  {
    if ops == [] then 0
    else Invalidations(ops[..|ops| - 1]) + if ops[|ops| - 1].Invalidate? then 1 else 0
  }

  /** The latest clock reading of the run. */
  function LastTime<S>(ops: seq<Op<S>>): int
  {
    if ops == [] then 1
    else if ops[|ops| - 1].Read? then ops[|ops| - 1].reading.stamp
    else LastTime(ops[..|ops| - 1])
  }

  /** The clock is positive and never steps back during the run. */
  predicate Monotone<S>(ops: seq<Op<S>>)
  {
    ops != [] ==>
      && Monotone(ops[..|ops| - 1])
      && (ops[|ops| - 1].Read? ==>
            LastTime(ops[..|ops| - 1]) <= ops[|ops| - 1].reading.now <= ops[|ops| - 1].reading.stamp)
  }

  /** The refreshes counted so far, apart from the first and one per invalidation,
      have each consumed a full TTL. */
  ghost predicate Paced<S>(e: Entry<S>, n: nat, k: nat, ttl: nat, now: int, a: int, b: int)
  {
    && (e.valid ==> 0 < e.timestamp <= now)
    && (n == 0 || (n - 1 - k) * ttl <= b - a)
    && (n > 0 ==> a <= now)
    && (n > 0 && now <= b && e.valid ==> (n - 1 - k) * ttl <= e.timestamp - a)
    && (n > 0 && now <= b && !e.valid ==> (n - k) * ttl <= now - a)
  }

  lemma PacedRefresh<S>(e: Entry<S>, n: nat, k: nat, ttl: nat, now: int, a: int, b: int, r: Reading<S>)
    requires ttl >= 1 && Paced(e, n, k, ttl, now, a, b) && 0 < now <= r.now <= r.stamp
    requires !Hit(e, r.now, ttl) && r.hal.Some?
    ensures Paced(AfterRead(e, ttl, r), if a <= r.stamp <= b then n + 1 else n, k, ttl, r.stamp, a, b)
  {
    if a <= r.stamp <= b {
      assert (n - k) * ttl == (n - 1 - k) * ttl + ttl;
      if n == 0 { Product(k, ttl); }
    }
  }

  lemma Product(k: nat, ttl: nat)
    ensures (0 - k) * ttl <= 0
  {
    assert (0 - k) * ttl == -(k * ttl);
  }

  lemma {:induction false} PacedRun<S>(zero: S, ttl: nat, ops: seq<Op<S>>, a: int, b: int)
    requires ttl >= 1 && Monotone(ops) && a <= b
    ensures LastTime(ops) > 0
    ensures var e0 := Entry(zero, 0, false);
            Paced(Run(e0, ttl, ops), RefreshCount(e0, ttl, ops, a, b), Invalidations(ops), ttl, LastTime(ops), a, b)
  {
    var e0 := Entry(zero, 0, false);
    if ops != [] {
      var front, last := ops[..|ops| - 1], ops[|ops| - 1];
      PacedRun(zero, ttl, front, a, b);
      var e, n, k := Run(e0, ttl, front), RefreshCount(e0, ttl, front, a, b), Invalidations(front);
      match last
      case Read(r) =>
        if Refreshes(e, ttl, last) { PacedRefresh(e, n, k, ttl, LastTime(front), a, b, r); }
      case Invalidate =>
        assert (n - 1 - (k + 1)) * ttl == (n - 1 - k) * ttl - ttl;
        assert (n - (k + 1)) * ttl == (n - 1 - k) * ttl;
        assert (n - k) * ttl == (n - 1 - k) * ttl + ttl;
    }
  }

  /** With a positive clock that never steps back, any pattern of reads and k
      invalidations refreshes from the HAL at most (b - a) / ttl + 1 + k times
      within [a, b]. */
  lemma RefreshBound<S>(zero: S, ttl: nat, ops: seq<Op<S>>, a: int, b: int)
    requires ttl >= 1 && Monotone(ops) && a <= b
    ensures RefreshCount(Entry(zero, 0, false), ttl, ops, a, b) <= (b - a) / ttl + 1 + Invalidations(ops)
  {
    PacedRun(zero, ttl, ops, a, b);
    var n, k := RefreshCount(Entry(zero, 0, false), ttl, ops, a, b), Invalidations(ops);
    if n > 1 + k { Quotient(n - 1 - k, ttl, b - a); }
  }

  lemma Quotient(m: nat, ttl: nat, d: nat)
    requires ttl >= 1 && m * ttl <= d
    ensures m <= d / ttl
  {
    var q := d / ttl;
    assert d < q * ttl + ttl == (q + 1) * ttl;
    assert m >= q + 1 ==> m * ttl >= (q + 1) * ttl;
  }
}
