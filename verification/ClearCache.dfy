/** Clearing the statistics while readers run: any number of threads read either
    cache or clear the counters, interleaved at the granularity of their critical
    sections and HAL calls.  The HAL's counters are identified by their generation,
    the number of successful clears (or factory resets) the HAL has performed. */
module ClearCache {
  import opened CText
  import opened StatsCache

  datatype Kind = Link | Transceiver

  /** Where a thread is.  floor is the newest clear that had returned when its
      read started; generation is that of the HAL counters it saw or cleared. */
  datatype Pc =
    | Idle
    | Called(kind: Kind, floor: nat)                     // called, waiting for the mutex
    | Missed(kind: Kind, floor: nat)                     // holds the mutex, about to call the HAL
    | Filled(kind: Kind, floor: nat)                     // holds the mutex, buffer filled, not yet stamped
    | Leaving(kind: Kind, floor: nat, served: Option<nat>) // holds the mutex, about to return
    | Cleared(generation: nat)                           // the HAL has cleared; waiting for the mutex
    | Invalidating(generation: nat)                      // holds the mutex, first cache invalidated
    | Returning(generation: nat)                         // invalidated and unlocked, about to return

  datatype Sys = Sys(
    generation: nat,                 // clears the HAL has performed
    settled: nat,                    // the newest clear that has invalidated both caches
    returned: nat,                   // the newest clear whose call has returned
    link: Entry<nat>, transceiver: Entry<nat>,
    owner: Option<nat>,              // the thread holding the data mutex
    threads: map<nat, Pc>)

  const EMPTY: Entry<nat> := Entry(0, 0, false)

  function CacheOf(s: Sys, k: Kind): Entry<nat> { if k.Link? then s.link else s.transceiver }

  function WithCache(s: Sys, k: Kind, e: Entry<nat>): Sys
  {
    if k.Link? then s.(link := e) else s.(transceiver := e)
  }

  function PcOf(s: Sys, t: nat): Pc { if t in s.threads then s.threads[t] else Idle }

  function Goto(s: Sys, t: nat, pc: Pc): Sys { s.(threads := s.threads[t := pc]) }

  datatype Act =
    | CallRead(t: nat, kind: Kind)
    | LockRead(t: nat, now: int)          // takes the mutex and tests the cache
    | Fill(t: nat, ok: bool)              // the HAL call of a miss
    | Stamp(t: nat, stamp: int)
    | Return(t: nat)                      // unlocks and returns
    | HalClear(t: nat, ok: bool)          // the HAL clear, outside the mutex
    | LockClear(t: nat)                   // takes the mutex, invalidates the link cache
    | FinishClear(t: nat)                 // invalidates the transceiver cache and unlocks
    | ReturnClear(t: nat)

  predicate Enabled(s: Sys, act: Act)
  {
    match act
    case CallRead(t, _) => PcOf(s, t).Idle?
    case LockRead(t, _) => PcOf(s, t).Called? && s.owner.None?
    case Fill(t, _) => PcOf(s, t).Missed?
    case Stamp(t, _) => PcOf(s, t).Filled?
    case Return(t) => PcOf(s, t).Leaving?
    case HalClear(t, _) => PcOf(s, t).Idle?
    case LockClear(t) => PcOf(s, t).Cleared? && s.owner.None?
    case FinishClear(t) => PcOf(s, t).Invalidating?
    case ReturnClear(t) => PcOf(s, t).Returning?
  }

  function Next(ttl: nat, s: Sys, act: Act): Sys
    requires Enabled(s, act)
  {
    match act
    case CallRead(t, k) => Goto(s, t, Called(k, s.returned))
    case LockRead(t, now) =>
      var Called(k, floor) := PcOf(s, t);
      var e := CacheOf(s, k);
      Goto(s.(owner := Some(t)), t, if Hit(e, now, ttl) then Leaving(k, floor, Some(e.data)) else Missed(k, floor))
    case Fill(t, ok) =>
      var Missed(k, floor) := PcOf(s, t);
      if ok then Goto(WithCache(s, k, CacheOf(s, k).(data := s.generation)), t, Filled(k, floor))
      else Goto(s, t, Leaving(k, floor, None))
    case Stamp(t, stamp) =>
      var Filled(k, floor) := PcOf(s, t);
      var e := CacheOf(s, k).(timestamp := stamp, valid := true);
      Goto(WithCache(s, k, e), t, Leaving(k, floor, Some(e.data)))
    case Return(t) => Goto(s.(owner := None), t, Idle)
    case HalClear(t, ok) =>
      if ok then Goto(s.(generation := s.generation + 1), t, Cleared(s.generation + 1)) else s
    case LockClear(t) =>
      Goto(s.(owner := Some(t), link := Invalidated(s.link)), t, Invalidating(PcOf(s, t).generation))
    case FinishClear(t) =>
      var g := PcOf(s, t).generation;
      Goto(s.(owner := None, transceiver := Invalidated(s.transceiver),
              settled := if g > s.settled then g else s.settled), t, Returning(g))
    case ReturnClear(t) =>
      var g := PcOf(s, t).generation;
      Goto(s.(returned := if g > s.returned then g else s.returned), t, Idle)
  }

  const INITIAL: Sys := Sys(0, 0, 0, EMPTY, EMPTY, None, map[])

  function Exec(ttl: nat, acts: seq<Act>): Option<Sys>
  {
    if acts == [] then Some(INITIAL)
    else
      match Exec(ttl, acts[..|acts| - 1])
      case None => None
      case Some(s) => if Enabled(s, acts[|acts| - 1]) then Some(Next(ttl, s, acts[|acts| - 1])) else None
  }

  /** A thread's critical section, run without interruption, is the getter's effect
      on the cache, with the HAL answering its current generation. */
  lemma SectionIsRead(ttl: nat, s: Sys, t: nat, k: Kind, floor: nat, now: int, ok: bool, stamp: int)
    requires PcOf(s, t) == Called(k, floor) && s.owner.None?
    ensures var r := StatsCache.Reading(now, if ok then Some(s.generation) else None, stamp);
            var s1 := Next(ttl, s, LockRead(t, now));
            var s2 := if PcOf(s1, t).Missed? then Next(ttl, s1, Fill(t, ok)) else s1;
            var s3 := if PcOf(s2, t).Filled? then Next(ttl, s2, Stamp(t, stamp)) else s2;
            && CacheOf(s3, k) == AfterRead(CacheOf(s, k), ttl, r)
            && PcOf(s3, t) == Leaving(k, floor, Served(CacheOf(s, k), ttl, r))
  {
  }

  // ------------------------------------------------------------ the invariant

  predicate InSection(pc: Pc) { pc.Missed? || pc.Filled? || pc.Leaving? || pc.Invalidating? }

  /** What one thread contributes: its generations exist, a filled buffer is newer
      than every settled clear, and it serves nothing older than its floor. */
  predicate ThreadOk(s: Sys, t: nat)
  {
    var pc := PcOf(s, t);
    && (InSection(pc) <==> s.owner == Some(t))
    && (pc.Called? || pc.Missed? || pc.Filled? || pc.Leaving? ==> pc.floor <= s.returned)
    && (pc.Cleared? || pc.Invalidating? || pc.Returning? ==> pc.generation <= s.generation)
    && (pc.Returning? ==> pc.generation <= s.settled)
    && (pc.Invalidating? ==> !s.link.valid)
    && (pc.Filled? ==> CacheOf(s, pc.kind).data >= s.settled)
    && (pc.Leaving? && pc.served.Some? ==> pc.served.value >= pc.floor)
  }

  ghost predicate Inv(s: Sys)
  {
    && s.returned <= s.settled <= s.generation
    && s.link.data <= s.generation && s.transceiver.data <= s.generation
    && (s.link.valid ==> s.link.data >= s.settled)
    && (s.transceiver.valid ==> s.transceiver.data >= s.settled)
    && (forall t :: ThreadOk(s, t))
  }

  /** The acting thread keeps its part of the invariant. */
  lemma ActorOk(ttl: nat, s: Sys, act: Act)
    requires Inv(s) && Enabled(s, act)
    ensures ThreadOk(Next(ttl, s, act), act.t)
  {
    assert ThreadOk(s, act.t);
    match act
    case LockRead(_, _) =>
    case Fill(_, _) =>
    case Stamp(_, _) =>
    case _ =>
  }

  /** So does every other thread: nobody else is inside a section while one acts there. */
  lemma BystanderOk(ttl: nat, s: Sys, act: Act, t: nat)
    requires Inv(s) && Enabled(s, act) && t != act.t
    ensures ThreadOk(Next(ttl, s, act), t)
  {
    assert ThreadOk(s, t) && ThreadOk(s, act.t);
    assert PcOf(Next(ttl, s, act), t) == PcOf(s, t);
    match act
    case Fill(_, _) =>
    case Stamp(_, _) =>
    case FinishClear(_) =>
    case _ =>
  }

  /** The caches stay newer than every settled clear, and reads newer than their floor. */
  lemma CachesOk(ttl: nat, s: Sys, act: Act)
    requires Inv(s) && Enabled(s, act)
    ensures var u := Next(ttl, s, act);
            && u.returned <= u.settled <= u.generation
            && u.link.data <= u.generation && u.transceiver.data <= u.generation
            && (u.link.valid ==> u.link.data >= u.settled)
            && (u.transceiver.valid ==> u.transceiver.data >= u.settled)
  {
    assert ThreadOk(s, act.t);
    match act
    case Fill(_, _) =>
    case Stamp(_, _) =>
    case FinishClear(_) =>
    case _ =>
  }

  lemma InvStep(ttl: nat, s: Sys, act: Act)
    requires Inv(s) && Enabled(s, act)
    ensures Inv(Next(ttl, s, act))
  {
    CachesOk(ttl, s, act);
    forall t
      ensures ThreadOk(Next(ttl, s, act), t)
    {
      if t == act.t { ActorOk(ttl, s, act); } else { BystanderOk(ttl, s, act, t); }
    }
  }

  lemma {:induction false} InvRun(ttl: nat, acts: seq<Act>)
    requires Exec(ttl, acts).Some?
    ensures Inv(Exec(ttl, acts).value)
  {
    if acts != [] {
      var n := |acts| - 1;
      InvRun(ttl, acts[..n]);
      InvStep(ttl, Exec(ttl, acts[..n]).value, acts[n]);
    }
  }

  // ------------------------------------------------------------ what readers see, over the actions alone

  /** An uninterrupted clear, from taking the mutex to releasing it, invalidates both
      caches and leaves the counters alone. */
  lemma SectionIsInvalidation(ttl: nat, s: Sys, t: nat)
    requires PcOf(s, t).Cleared? && s.owner.None?
    ensures var s1 := Next(ttl, s, LockClear(t));
            Enabled(s1, FinishClear(t)) &&
            var s2 := Next(ttl, s1, FinishClear(t));
            && s2.link == Invalidated(s.link) && s2.transceiver == Invalidated(s.transceiver)
            && s2.generation == s.generation && s2.owner.None? && Enabled(s2, ReturnClear(t))
  {
  }

  /** The clears the HAL has performed. */
  function Clears(acts: seq<Act>): nat
  {
    if acts == [] then 0
    else
      var last := acts[|acts| - 1];
      Clears(acts[..|acts| - 1]) + if last.HalClear? && last.ok then 1 else 0
  }

  lemma {:induction false} GenerationCountsClears(ttl: nat, acts: seq<Act>)
    requires Exec(ttl, acts).Some?
    ensures Exec(ttl, acts).value.generation == Clears(acts)
  {
    if acts != [] { GenerationCountsClears(ttl, acts[..|acts| - 1]); }
  }

  lemma {:induction false} PrefixRuns(ttl: nat, acts: seq<Act>, i: nat)
    requires Exec(ttl, acts).Some? && i <= |acts|
    ensures Exec(ttl, acts[..i]).Some?
  {
    if i == |acts| {
      assert acts[..i] == acts;
    } else {
      PrefixRuns(ttl, acts[..|acts| - 1], i);
      assert acts[..|acts| - 1][..i] == acts[..i];
    }
  }

  /** The state before action i. */
  function Before(ttl: nat, acts: seq<Act>, i: nat): Sys
    requires Exec(ttl, acts).Some? && i <= |acts|
  {
    PrefixRuns(ttl, acts, i);
    Exec(ttl, acts[..i]).value
  }

  lemma OneStep(ttl: nat, acts: seq<Act>, i: nat)
    requires Exec(ttl, acts).Some? && i < |acts|
    ensures Enabled(Before(ttl, acts, i), acts[i])
    ensures Before(ttl, acts, i + 1) == Next(ttl, Before(ttl, acts, i), acts[i])
  {
    PrefixRuns(ttl, acts, i + 1);
    assert acts[..i + 1][..i] == acts[..i];
  }

  /** Action k returns from the clear whose HAL call was action j. */
  predicate ReturnsFrom(acts: seq<Act>, t: nat, j: nat, k: nat)
  {
    && j < k < |acts| && acts[j] == HalClear(t, true) && acts[k] == ReturnClear(t)
    && forall i | j < i < k :: acts[i] != ReturnClear(t)
  }

  /** Action n returns from the read called at action m. */
  predicate AnswersCall(acts: seq<Act>, u: nat, k: Kind, m: nat, n: nat)
  {
    && m < n < |acts| && acts[m] == CallRead(u, k) && acts[n] == Return(u)
    && forall i | m < i < n :: acts[i] != Return(u)
  }

  predicate Clearing(pc: Pc, g: nat)
  {
    (pc.Cleared? || pc.Invalidating? || pc.Returning?) && pc.generation == g
  }

  lemma ClearingStep(ttl: nat, s: Sys, act: Act, t: nat, g: nat)
    requires Enabled(s, act) && Clearing(PcOf(s, t), g) && act != ReturnClear(t)
    ensures Clearing(PcOf(Next(ttl, s, act), t), g)
  {
  }

  lemma ClearBegins(ttl: nat, s: Sys, t: nat)
    requires Enabled(s, HalClear(t, true))
    ensures Clearing(PcOf(Next(ttl, s, HalClear(t, true)), t), Next(ttl, s, HalClear(t, true)).generation)
  {
  }

  /** While the clear is under way its thread carries the clear's number. */
  lemma {:induction false} ClearInProgress(ttl: nat, acts: seq<Act>, t: nat, j: nat, i: nat)
    requires Exec(ttl, acts).Some? && j < i <= |acts| && acts[j] == HalClear(t, true)
    requires forall l | j < l < i :: acts[l] != ReturnClear(t)
    ensures Clearing(PcOf(Before(ttl, acts, i), t), Clears(acts[..j + 1]))
  {
    OneStep(ttl, acts, i - 1);
    if i == j + 1 {
      PrefixRuns(ttl, acts, i);
      GenerationCountsClears(ttl, acts[..i]);
      ClearBegins(ttl, Before(ttl, acts, j), t);
    } else {
      ClearInProgress(ttl, acts, t, j, i - 1);
      ClearingStep(ttl, Before(ttl, acts, i - 1), acts[i - 1], t, Clears(acts[..j + 1]));
    }
  }

  lemma {:induction false} ReturnedGrows(ttl: nat, acts: seq<Act>, i: nat, j: nat)
    requires Exec(ttl, acts).Some? && i <= j <= |acts|
    ensures Before(ttl, acts, i).returned <= Before(ttl, acts, j).returned
  {
    if i < j {
      ReturnedGrows(ttl, acts, i, j - 1);
      OneStep(ttl, acts, j - 1);
    }
  }

  predicate Reading(pc: Pc, k: Kind, floor: nat)
  {
    (pc.Called? || pc.Missed? || pc.Filled? || pc.Leaving?) && pc.kind == k && pc.floor == floor
  }

  lemma ReadingStep(ttl: nat, s: Sys, act: Act, u: nat, k: Kind, floor: nat)
    requires Enabled(s, act) && Reading(PcOf(s, u), k, floor) && act != Return(u)
    ensures Reading(PcOf(Next(ttl, s, act), u), k, floor)
  {
  }

  /** While the read is under way its thread carries the clears returned when it was called. */
  lemma {:induction false} ReadInProgress(ttl: nat, acts: seq<Act>, u: nat, k: Kind, m: nat, i: nat)
    requires Exec(ttl, acts).Some? && m < i <= |acts| && acts[m] == CallRead(u, k)
    requires forall l | m < l < i :: acts[l] != Return(u)
    ensures Reading(PcOf(Before(ttl, acts, i), u), k, Before(ttl, acts, m).returned)
  {
    OneStep(ttl, acts, i - 1);
    if i > m + 1 {
      ReadInProgress(ttl, acts, u, k, m, i - 1);
      ReadingStep(ttl, Before(ttl, acts, i - 1), acts[i - 1], u, k, Before(ttl, acts, m).returned);
    }
  }

  /** What a thread about to return serves: nothing, or the buffer of its cache. */
  function Answer(s: Sys, u: nat): Option<nat>
  {
    var pc := PcOf(s, u);
    if pc.Leaving? && pc.served.Some? then Some(CacheOf(s, pc.kind).data) else None
  }

  /** The buffer is what was tested or filled: nobody else writes it meanwhile. */
  lemma {:induction false} ServedIsBuffer(ttl: nat, acts: seq<Act>, u: nat)
    requires Exec(ttl, acts).Some?
    ensures var pc := PcOf(Exec(ttl, acts).value, u);
            pc.Leaving? && pc.served.Some? ==> pc.served == Answer(Exec(ttl, acts).value, u)
  {
    if acts != [] {
      var n := |acts| - 1;
      ServedIsBuffer(ttl, acts[..n], u);
      InvRun(ttl, acts[..n]);
      assert ThreadOk(Exec(ttl, acts[..n]).value, u) && ThreadOk(Exec(ttl, acts[..n]).value, acts[n].t);
    }
  }

  /** From the return of a clear on, the machine knows that clear as returned. */
  lemma ReturnIsKnown(ttl: nat, acts: seq<Act>, t: nat, j: nat, k: nat, m: nat)
    requires Exec(ttl, acts).Some? && ReturnsFrom(acts, t, j, k) && k < m <= |acts|
    ensures Before(ttl, acts, m).returned >= Clears(acts[..j + 1])
  {
    ClearInProgress(ttl, acts, t, j, k);
    OneStep(ttl, acts, k);
    ReturnedGrows(ttl, acts, k + 1, m);
  }

  /** A thread about to return serves nothing older than the clears its read started with. */
  lemma ServesNewer(ttl: nat, acts: seq<Act>, u: nat)
    requires Exec(ttl, acts).Some?
    ensures var s := Exec(ttl, acts).value;
            Answer(s, u).Some? ==> Answer(s, u).value >= PcOf(s, u).floor
  {
    InvRun(ttl, acts);
    ServedIsBuffer(ttl, acts, u);
    assert ThreadOk(Exec(ttl, acts).value, u);
  }

  /** Once a clear has returned success, no read called later, on any thread and of either
      kind, serves a snapshot the HAL took before that clear: what it serves counts at
      least the clears performed up to and including that one. */
  lemma NoSnapshotFromBeforeClear(ttl: nat, acts: seq<Act>, t: nat, j: nat, k: nat, u: nat, kind: Kind, m: nat, n: nat)
    requires Exec(ttl, acts).Some? && ReturnsFrom(acts, t, j, k) && k < m && AnswersCall(acts, u, kind, m, n)
    ensures var answer := Answer(Before(ttl, acts, n), u);
            answer.Some? ==> answer.value >= Clears(acts[..j + 1])
  {
    ReturnIsKnown(ttl, acts, t, j, k, m);
    ReadInProgress(ttl, acts, u, kind, m, n);
    PrefixRuns(ttl, acts, n);
    ServesNewer(ttl, acts[..n], u);
  }

  /** The next action of a thread that is in the middle of a call. */
  function NextAct(pc: Pc, t: nat, clock: int, ok: bool): Act
    requires !pc.Idle?
  {
    match pc
    case Called(_, _) => LockRead(t, clock)
    case Missed(_, _) => Fill(t, ok)
    case Filled(_, _) => Stamp(t, clock)
    case Leaving(_, _, _) => Return(t)
    case Cleared(_) => LockClear(t)
    case Invalidating(_) => FinishClear(t)
    case Returning(_) => ReturnClear(t)
  }

  /** Every call goes on: its thread can step, or waits for the mutex of one that can. */
  lemma CallsGoOn(ttl: nat, acts: seq<Act>, t: nat, clock: int, ok: bool)
    requires Exec(ttl, acts).Some? && !PcOf(Exec(ttl, acts).value, t).Idle?
    ensures var s := Exec(ttl, acts).value;
            || Enabled(s, NextAct(PcOf(s, t), t, clock, ok))
            || (s.owner.Some? && !PcOf(s, s.owner.value).Idle?
                && Enabled(s, NextAct(PcOf(s, s.owner.value), s.owner.value, clock, ok)))
  {
    InvRun(ttl, acts);
    var s := Exec(ttl, acts).value;
    if s.owner.Some? { assert ThreadOk(s, s.owner.value); }
  }

  /** Between the HAL clear and the invalidation a read may still serve the old
      counters: the guarantee starts when the clear returns, not when it is called. */
  lemma OldSnapshotBeforeReturn(ttl: nat)
    requires ttl > 0
    ensures exists acts ::
              && Exec(ttl, acts).Some? && Clears(acts) == 1
              && var s := Exec(ttl, acts).value;
                 && Answer(s, 0) == Some(0) && Enabled(s, Return(0)) && PcOf(s, 1).Cleared?
  {
    var a1: seq<Act> := [] + [CallRead(0, Link)];
    var a2 := a1 + [LockRead(0, 5)];
    var a3 := a2 + [Fill(0, true)];
    var a4 := a3 + [Stamp(0, 5)];
    var a5 := a4 + [Return(0)];
    var a6 := a5 + [HalClear(1, true)];
    var a7 := a6 + [CallRead(0, Link)];
    var a8 := a7 + [LockRead(0, 5)];
    Extend(ttl, [], CallRead(0, Link));
    Extend(ttl, a1, LockRead(0, 5));
    Extend(ttl, a2, Fill(0, true));
    assert Exec(ttl, a3).Some? && PcOf(Exec(ttl, a3).value, 0) == Filled(Link, 0);
    Extend(ttl, a3, Stamp(0, 5));
    assert Exec(ttl, a4).Some? && Exec(ttl, a4).value.link == Entry(0, 5, true);
    Extend(ttl, a4, Return(0));
    Extend(ttl, a5, HalClear(1, true));
    assert Exec(ttl, a6).Some? && PcOf(Exec(ttl, a6).value, 0) == Idle;
    Extend(ttl, a6, CallRead(0, Link));
    Extend(ttl, a7, LockRead(0, 5));
    assert Exec(ttl, a8).Some? && PcOf(Exec(ttl, a8).value, 0) == Leaving(Link, 0, Some(0));
    GenerationCountsClears(ttl, a8);
    assert Answer(Exec(ttl, a8).value, 0) == Some(0);
  }

  lemma Extend(ttl: nat, acts: seq<Act>, act: Act)
    ensures Exec(ttl, acts + [act]) ==
            match Exec(ttl, acts)
            case None => None
            case Some(s) => if Enabled(s, act) then Some(Next(ttl, s, act)) else None
  {
    assert (acts + [act])[..|acts|] == acts;
  }
}
