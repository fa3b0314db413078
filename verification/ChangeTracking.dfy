/** When the TR-181 tables are resynchronised: a refresh compares the new count with
    a count cache under the data mutex, unlocks, and only then synchronises the rows.
    Any number of threads refresh concurrently; registrations are assumed to succeed. */
module ChangeTracking {
  import opened CText
  import HalLists
  import RowTables

  /** Every index below n (and below the table size max) has a registered row; a
      row is named by its index, its instance number being one more. */
  predicate Covered(rows: set<nat>, n: nat, max: nat)
  {
    forall i: nat | i < n && i < max :: i in rows
  }

  function Below(n: nat): (s: set<nat>)
    ensures forall i: nat :: i in s <==> i < n
  {
    if n == 0 then {} else Below(n - 1) + {n - 1}
  }

  /** A synchronisation registers every missing row of the current list. */
  function Registered(rows: set<nat>, n: nat, max: nat): (r: set<nat>)
    ensures rows <= r && Covered(r, n, max)
  {
    rows + Below(Min(n, max))
  }

  /** The indices of the registered rows of a table. */
  function Indices(rows: seq<RowTables.Row>): set<nat>
  {
    set i: nat | i < |rows| && rows[i].registered
  }

  /** That is what a synchronisation does to the real table when the list holds as
      many entries as its count says and the bus takes every row; a null list yields
      no entry, and nothing is registered. */
  lemma RegisteredIsSynced(rows: seq<RowTables.Row>, names: seq<string>, count: nat, accepts: seq<bool>)
    ensures var s := RowTables.Sync(|names|, names, seq(|names|, _ => true));
            Indices(RowTables.Synced(rows, s)) == Registered(Indices(rows), |names|, |rows|)
    ensures Indices(RowTables.Synced(rows, RowTables.Sync(count, [], accepts))) == Indices(rows)
  {
    var s := RowTables.Sync(|names|, names, seq(|names|, _ => true));
    var after := RowTables.Synced(rows, s);
    assert forall i: nat | i < |rows| :: after[i].registered <==> rows[i].registered || i < |names|;
  }

  // ------------------------------------------------------------ lists freed before a refresh

  /** The HAL's answer to a refresh: a list of n entries, a null list reported with a
      count of n, or a failure. */
  datatype Hal = Entries(n: nat) | Null(n: nat) | Fails

  /** The LLID list or the CPE table.  pending counts the threads between a refresh's
      unlock and its synchronisation; latest is the number of entries of the last
      successfully delivered list. */
  datatype Owned = Owned(count: nat, present: bool, latest: nat, cache: nat, pending: nat, rows: set<nat>)

  datatype OwnedAct =
    | Refresh(hal: Hal)
    | Synchronize          // a pending synchronisation runs
    | ResetCache           // cache invalidation

  predicate OwnedEnabled(s: Owned, act: OwnedAct) { act.Synchronize? ==> s.pending > 0 }

  /** What the list is after a refresh, which frees the old one first. */
  function Replaced(s: Owned, hal: Hal): Owned
  {
    match hal
    case Entries(n) => s.(count := n, present := true, latest := n)
    case Null(n) => s.(count := n, present := false, latest := 0)
    case Fails => s.(count := if s.present then 0 else s.count, present := false)
  }

  function Synchronized(max: nat, s: Owned): Owned
  {
    s.(rows := if s.present then Registered(s.rows, s.count, max) else s.rows)
  }

  function OwnedNext(max: nat, s: Owned, act: OwnedAct): Owned
    requires OwnedEnabled(s, act)
  {
    match act
    case Refresh(hal) =>
      var t := Replaced(s, hal);
      if !hal.Fails? && t.count != t.cache then t.(cache := t.count, pending := t.pending + 1) else t
    case Synchronize => Synchronized(max, s.(pending := s.pending - 1))
    case ResetCache => s.(cache := 0)
  }

  const OWNED_INITIAL: Owned := Owned(0, false, 0, 0, 0, {})

  /** The abstraction of a list and of an answer. */
  predicate Tracks<E>(s: Owned, v: HalLists.View<E>)
  {
    s.count == HalLists.Total(v) && s.present == v.entries.Some?
  }

  function HalOf<E>(a: HalLists.Answer<E>): Hal
  {
    match a
    case Failure => Fails
    case Success(first, second, entries) =>
      if entries.Some? then Entries(Wrap32(first + second)) else Null(Wrap32(first + second))
  }

  /** Count and presence follow the real list through any refresh, and a delivered list
      has as many entries as latest says. */
  lemma RefreshTracks<E>(max: nat, s: Owned, v: HalLists.View<E>, a: HalLists.Answer<E>)
    requires Tracks(s, v) && HalLists.Truthful(a)
    ensures var t := OwnedNext(max, s, Refresh(HalOf(a)));
            && Tracks(t, HalLists.Refreshed(v, a))
            && (a.Success? ==> t.latest == if a.entries.Some? then |a.entries.value| else 0)
  {
  }

  function OwnedExec(max: nat, acts: seq<OwnedAct>): Option<Owned>
  {
    if acts == [] then Some(OWNED_INITIAL)
    else
      match OwnedExec(max, acts[..|acts| - 1])
      case None => None
      case Some(s) =>
        if OwnedEnabled(s, acts[|acts| - 1]) then Some(OwnedNext(max, s, acts[|acts| - 1])) else None
  }

  /** No thread is between its unlock and its synchronisation, so every row of the
      last delivered list must be registered. */
  predicate OwnedComplete(max: nat, s: Owned) { s.pending == 0 ==> Covered(s.rows, s.latest, max) }

  /** A refresh that fails while another thread still has to synchronise and some row
      of the delivered list is not yet registered, or one that delivers a null list with
      a count for which some row is not registered. */
  predicate Untimely(max: nat, s: Owned, act: OwnedAct)
  {
    && act.Refresh?
    && match act.hal
       case Entries(_) => false
       case Null(n) => !Covered(s.rows, n, max)
       case Fails => s.pending > 0 && !Covered(s.rows, s.latest, max)
  }

  /** The number of entries of the last list delivered in a run. */
  function LastDelivered(acts: seq<OwnedAct>): nat
  {
    if acts == [] then 0
    else
      var last := acts[|acts| - 1];
      if last.Refresh? && last.hal.Entries? then last.hal.n
      else if last.Refresh? && last.hal.Null? then 0
      else LastDelivered(acts[..|acts| - 1])
  }

  lemma {:induction false} LatestIsLastDelivered(max: nat, acts: seq<OwnedAct>)
    requires OwnedExec(max, acts).Some?
    ensures OwnedExec(max, acts).value.latest == LastDelivered(acts)
  {
    if acts != [] { LatestIsLastDelivered(max, acts[..|acts| - 1]); }
  }

  predicate Orderly(max: nat, acts: seq<OwnedAct>)
    requires OwnedExec(max, acts).Some?
  {
    acts != [] ==>
      && Orderly(max, acts[..|acts| - 1])
      && !Untimely(max, OwnedExec(max, acts[..|acts| - 1]).value, acts[|acts| - 1])
  }

  predicate OwnedInv(max: nat, s: Owned)
  {
    && (s.cache == 0 || s.cache == s.latest || Covered(s.rows, s.cache, max))
    && (s.pending == 0 ==> Covered(s.rows, s.latest, max))
    && ((s.present && s.count == s.latest) || Covered(s.rows, s.latest, max))
  }

  /** Whatever grows, shrinks, fails or is invalidated, the table is complete
      whenever no synchronisation is outstanding, provided no refresh is
      untimely. */
  lemma {:induction false} OwnedTablesComplete(max: nat, acts: seq<OwnedAct>)
    requires OwnedExec(max, acts).Some? && Orderly(max, acts)
    ensures OwnedInv(max, OwnedExec(max, acts).value)
    ensures OwnedComplete(max, OwnedExec(max, acts).value)
    ensures OwnedExec(max, acts).value.latest == LastDelivered(acts)
  {
    LatestIsLastDelivered(max, acts);
    if acts != [] {
      OwnedTablesComplete(max, acts[..|acts| - 1]);
    }
  }

  lemma OwnedExtend(max: nat, acts: seq<OwnedAct>, act: OwnedAct)
    requires OwnedExec(max, acts).Some? && OwnedEnabled(OwnedExec(max, acts).value, act)
    ensures OwnedExec(max, acts + [act]) == Some(OwnedNext(max, OwnedExec(max, acts).value, act))
  {
    assert (acts + [act])[..|acts|] == acts;
  }

  /** Cache invalidation has its effect: the next list delivered with entries asks for a
      synchronisation even if its length has not changed. */
  lemma ResetForcesSynchronisation(max: nat, s: Owned, hal: Hal)
    requires !hal.Fails? && hal.n > 0
    ensures OwnedNext(max, OwnedNext(max, s, ResetCache), Refresh(hal)).pending == s.pending + 1
    ensures hal.n == s.cache ==> OwnedNext(max, s, Refresh(hal)).pending == s.pending
  {
  }

  function Repeated(n: nat, times: nat): seq<OwnedAct> { seq(times, _ => Refresh(Entries(n))) }

  /** The proviso is exact for failures: after an untimely one the outstanding
      synchronisations find no list and leave the table incomplete; and unless the cache
      was invalidated meanwhile, any number of later refreshes that deliver the same list
      again leave it incomplete. */
  lemma UntimelyLosesRows(max: nat, acts: seq<OwnedAct>, again: nat)
    requires OwnedExec(max, acts).Some? && Untimely(max, OwnedExec(max, acts).value, Refresh(Fails))
    ensures exists run: seq<OwnedAct> ::
              && acts + [Refresh(Fails)] <= run && OwnedExec(max, run).Some?
              && !OwnedComplete(max, OwnedExec(max, run).value)
    ensures var s := OwnedExec(max, acts).value;
            s.cache == s.latest ==>
              exists run: seq<OwnedAct> ::
                && acts + [Refresh(Fails)] <= run && |run| > again && OwnedExec(max, run).Some?
                && run[|run| - again..] == Repeated(s.latest, again)
                && !OwnedComplete(max, OwnedExec(max, run).value)
  {
    var s := OwnedExec(max, acts).value;
    OwnedExtend(max, acts, Refresh(Fails));
    var run := SynchronizeAll(max, acts + [Refresh(Fails)], s.pending);
    assert !OwnedComplete(max, OwnedExec(max, run).value);
    if s.cache == s.latest {
      var longer := RefreshAgain(max, run, s.latest, again);
      assert !OwnedComplete(max, OwnedExec(max, longer).value);
    }
  }

  /** And for null lists: the next real list with that count, and any repetition of it,
      is taken for unchanged and leaves the table incomplete. */
  lemma NullListLosesRows(max: nat, acts: seq<OwnedAct>, n: nat, again: nat)
    requires OwnedExec(max, acts).Some? && Untimely(max, OwnedExec(max, acts).value, Refresh(Null(n))) && again > 0
    ensures exists run: seq<OwnedAct> ::
              && acts + [Refresh(Null(n))] <= run && |run| > again && OwnedExec(max, run).Some?
              && run[|run| - again..] == Repeated(n, again)
              && !OwnedComplete(max, OwnedExec(max, run).value)
  {
    OwnedExtend(max, acts, Refresh(Null(n)));
    var s := OwnedExec(max, acts + [Refresh(Null(n))]).value;
    var run := SynchronizeAll(max, acts + [Refresh(Null(n))], s.pending);
    OwnedExtend(max, run, Refresh(Entries(n)));
    var longer := RefreshAgain(max, run + [Refresh(Entries(n))], n, again - 1);
    assert longer[|longer| - again..] == Repeated(n, again);
    assert !OwnedComplete(max, OwnedExec(max, longer).value);
  }

  /** Untimely refreshes happen: a failure right after the first delivery, a null list
      at the very start. */
  lemma UntimelyIsReachable(max: nat)
    requires max > 0
    ensures OwnedExec(max, [Refresh(Entries(1))]).Some?
    ensures Untimely(max, OwnedExec(max, [Refresh(Entries(1))]).value, Refresh(Fails))
    ensures Untimely(max, OWNED_INITIAL, Refresh(Null(1)))
  {
    OwnedExtend(max, [], Refresh(Entries(1)));
    assert [] + [Refresh(Entries(1))] == [Refresh(Entries(1))];
    assert 0 !in OWNED_INITIAL.rows;
  }

  /** Running k outstanding synchronisations of a null list registers nothing. */
  lemma {:induction false} SynchronizeAll(max: nat, acts: seq<OwnedAct>, k: nat) returns (run: seq<OwnedAct>)
    requires OwnedExec(max, acts).Some?
    requires !OwnedExec(max, acts).value.present && OwnedExec(max, acts).value.pending == k
    ensures acts <= run && OwnedExec(max, run) == Some(OwnedExec(max, acts).value.(pending := 0))
    decreases k
  {
    if k == 0 {
      run := acts;
    } else {
      OwnedExtend(max, acts, Synchronize);
      run := SynchronizeAll(max, acts + [Synchronize], k - 1);
    }
  }

  /** Refreshing the same list changes neither cache nor rows. */
  lemma {:induction false} RefreshAgain(max: nat, acts: seq<OwnedAct>, n: nat, times: nat) returns (run: seq<OwnedAct>)
    requires OwnedExec(max, acts).Some?
    requires OwnedExec(max, acts).value.latest == n == OwnedExec(max, acts).value.cache
    ensures run == acts + Repeated(n, times)
    ensures OwnedExec(max, run).Some?
    ensures var s := OwnedExec(max, acts).value; var t := OwnedExec(max, run).value;
            t.(count := 0, present := true) == s.(count := 0, present := true)
    decreases times
  {
    if times == 0 {
      run := acts + Repeated(n, times);
      assert run == acts;
    } else {
      var front := RefreshAgain(max, acts, n, times - 1);
      OwnedExtend(max, front, Refresh(Entries(n)));
      run := front + [Refresh(Entries(n))];
      assert run == acts + Repeated(n, times);
    }
  }

  /** The table GET handlers hold the (recursive) data mutex around refresh and
      synchronisation and then synchronise once more, so no other thread comes in
      between. */
  function AfterGet(max: nat, s: Owned, hal: Hal): Owned
  {
    var r := OwnedNext(max, s, Refresh(hal));
    Synchronized(max, if r.pending > s.pending then OwnedNext(max, r, Synchronize) else r)
  }

  datatype HandlerAct = Get(hal: Hal) | Invalidate

  function AfterHandlers(max: nat, acts: seq<HandlerAct>): Owned
  {
    if acts == [] then OWNED_INITIAL
    else
      var s := AfterHandlers(max, acts[..|acts| - 1]);
      match acts[|acts| - 1]
      case Get(hal) => AfterGet(max, s, hal)
      case Invalidate => OwnedNext(max, s, ResetCache)
  }

  /** The number of entries of the last list the handlers were given. */
  function LastGiven(acts: seq<HandlerAct>): nat
  {
    if acts == [] then 0
    else
      var last := acts[|acts| - 1];
      if last.Get? && last.hal.Entries? then last.hal.n
      else if last.Get? && last.hal.Null? then 0
      else LastGiven(acts[..|acts| - 1])
  }

  /** Whatever the HAL answers, failures and null lists included, and whenever caches are
      invalidated, after each handler every row of the last list given is registered. */
  lemma {:induction false} HandlersKeepTablesComplete(max: nat, acts: seq<HandlerAct>)
    ensures var s := AfterHandlers(max, acts);
            && s.pending == 0 && Covered(s.rows, LastGiven(acts), max)
            && s.latest == LastGiven(acts) && (s.present ==> s.count == s.latest)
  {
    if acts != [] {
      HandlersKeepTablesComplete(max, acts[..|acts| - 1]);
    }
  }

  // ------------------------------------------------------------ the interface list

  /** The event loop's place inside an interface event. */
  datatype Phase = NoEvent | Appended | ToSync | ToWrite

  /** The interface list changes through HAL refreshes (poller thread) and through
      events (controller loop, without the data mutex); a failed refresh leaves it alone. */
  datatype Shared = Shared(count: nat, cache: nat, pending: nat, phase: Phase, rows: set<nat>)

  datatype SharedAct =
    | HalRefresh(n: nat)
    | HalFailure
    | RefreshSync            // a pending synchronisation of a refresh runs
    | Reset                  // cache invalidation
    | EventUpdate(isNew: bool) // the event's list update, appending a new name or not
    | EventCompare           // count against cache
    | EventSync
    | EventWrite             // the cache is set to the current count

  predicate SharedEnabled(s: Shared, act: SharedAct)
  {
    match act
    case RefreshSync => s.pending > 0
    case EventUpdate(_) => s.phase.NoEvent?
    case EventCompare => s.phase.Appended?
    case EventSync => s.phase.ToSync?
    case EventWrite => s.phase.ToWrite?
    case _ => true
  }

  function SharedNext(max: nat, s: Shared, act: SharedAct): Shared
    requires SharedEnabled(s, act)
  {
    match act
    case HalRefresh(n) =>
      if n != s.cache then s.(count := n, cache := n, pending := s.pending + 1) else s.(count := n)
    case HalFailure => s
    case RefreshSync => s.(pending := s.pending - 1, rows := Registered(s.rows, s.count, max))
    case Reset => s.(cache := 0)
    case EventUpdate(isNew) => s.(count := if isNew then s.count + 1 else s.count, phase := Appended)
    case EventCompare => s.(phase := if s.count != s.cache then ToSync else NoEvent)
    case EventSync => s.(phase := ToWrite, rows := Registered(s.rows, s.count, max))
    case EventWrite => s.(phase := NoEvent, cache := s.count)
  }

  const SHARED_INITIAL: Shared := Shared(0, 0, 0, NoEvent, {})

  function SharedExec(max: nat, acts: seq<SharedAct>): Option<Shared>
  {
    if acts == [] then Some(SHARED_INITIAL)
    else
      match SharedExec(max, acts[..|acts| - 1])
      case None => None
      case Some(s) =>
        if SharedEnabled(s, acts[|acts| - 1]) then Some(SharedNext(max, s, acts[|acts| - 1])) else None
  }

  lemma ResetForcesSharedSynchronisation(max: nat, s: Shared, n: nat)
    requires n > 0
    ensures SharedNext(max, SharedNext(max, s, Reset), HalRefresh(n)).pending == s.pending + 1
    ensures n == s.cache ==> SharedNext(max, s, HalRefresh(n)).pending == s.pending
  {
  }

  predicate SharedInv(max: nat, s: Shared)
  {
    && s.cache <= s.count
    && (s.phase.NoEvent? ==> s.cache == s.count || s.cache == 0)
    && (s.pending == 0 ==> Covered(s.rows, s.cache, max))
    && (s.pending == 0 && (s.phase.NoEvent? || s.phase.ToWrite?) ==> Covered(s.rows, s.count, max))
  }

  /** For every interleaving of refreshes, failures, invalidations and events, the
      VEIP table is complete whenever no synchronisation and no event is in flight. */
  lemma {:induction false} VeipTableComplete(max: nat, acts: seq<SharedAct>)
    requires SharedExec(max, acts).Some?
    ensures var s := SharedExec(max, acts).value;
            && SharedInv(max, s)
            && (s.pending == 0 && s.phase.NoEvent? ==> Covered(s.rows, s.count, max))
  {
    if acts != [] {
      VeipTableComplete(max, acts[..|acts| - 1]);
    }
  }
}
