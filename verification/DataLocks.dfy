/** The locking skeletons of the manager's operations, and that each passes the
    lock discipline; so any number of threads running any of them never deadlock. */
module DataLocks {
  import opened CText
  import opened Locking

  // ------------------------------------------------------------ building blocks

  /** Lock, do something, unlock. */
  function Section(l: Lock, body: Code): Code { Then(Acquire(l), Then(body, Release(l))) }

  /** Telemetry takes its own mutex around a flag test. */
  function Telemetry(): Code { Section(TelemetryMutex, Skip) }

  /** A HAL callback: push, and a marker when the queue is full. */
  function Callback(): Code { Then(Section(QueueMutex, Skip), Either(Skip, Telemetry())) }

  /** A HAL call; the HAL may call back any number of times before it returns. */
  function HalCall(): Code { Repeat(Callback()) }

  function DataLock(body: Code): Code { Section(DataMutex, body) }

  // ------------------------------------------------------------ the data context

  /** An exit of a function that holds the data mutex. */
  const UNLOCK: Code := Release(DataMutex)

  /** A read or write of the data context. */
  const TOUCH: Code := Use(DataMutex)

  const TOUCH_UNLOCK: Code := Then(TOUCH, UNLOCK)

  /** Link or transceiver statistics, and the validity-flag caches: a hit unlocks at once,
      a HAL success and a HAL failure each on their own. */
  function CachedGet(): Code
  {
    Then(Acquire(DataMutex), Then(TOUCH, Either(UNLOCK, Then(HalCall(), Either(TOUCH_UNLOCK, UNLOCK)))))
  }

  /** The index and name accessors: nothing found, or a copy. */
  function AtIndex(): Code { Then(Acquire(DataMutex), Then(TOUCH, Either(UNLOCK, TOUCH_UNLOCK))) }

  /** Table synchronisation: no handle or no context, or a pass over the rows. */
  function SyncTable(): Code
  {
    Either(Skip, Either(Skip, DataLock(Then(TOUCH, Repeat(Either(Skip, Then(AtIndex(), TOUCH)))))))
  }

  /** A list refresh: a changed count unlocks before it synchronises the table, an
      unchanged one and a HAL failure just unlock. */
  function RefreshList(): Code
  {
    Then(Acquire(DataMutex),
      Then(TOUCH, Then(HalCall(), Either(Then(TOUCH_UNLOCK, SyncTable()), Either(TOUCH_UNLOCK, UNLOCK)))))
  }

  function Invalidated(): Code { Then(Section(StatsMutex, Skip), TOUCH) }

  function InvalidateCache(): Code { DataLock(Then(Invalidated(), Section(OnuMutex, Skip))) }

  function ClearStats(): Code { Then(HalCall(), Either(DataLock(Invalidated()), Skip)) }

  function FactoryReset(): Code { Then(HalCall(), Either(Then(DataLock(Invalidated()), Telemetry()), Skip)) }

  function ResetOnu(): Code { Then(HalCall(), Either(Telemetry(), Skip)) }

  function HalInit(): Code { DataLock(Then(TOUCH, Then(HalCall(), Either(Section(OnuMutex, Skip), Skip)))) }

  // ------------------------------------------------------------ GET handlers

  // Exit by exit: every return of a handler has its own unlock.

  /** The context lock fails and the handler returns at once, or its body runs with the
      mutex held. */
  function Handler(body: Code): Code { Either(Skip, Then(Acquire(DataMutex), body)) }

  /** Base parameters: fixed values, ONU state, link statistics; one exit. */
  function BaseGet(): Code
  {
    Handler(Then(Either(Skip, Either(Then(TOUCH, Section(OnuMutex, Skip)), Then(CachedGet(), TOUCH))), UNLOCK))
  }

  /** Optical, transceiver, statistics, manufacturer and OLT parameters: the cached
      record is not available, or the value is delivered. */
  function RecordGet(): Code { Handler(Then(CachedGet(), Either(UNLOCK, TOUCH_UNLOCK))) }

  /** EPON parameters: link information, ONU state, configuration, LLID maximum; one exit. */
  function EponGet(): Code
  {
    Handler(Then(Either(Then(CachedGet(), TOUCH),
                        Either(Then(TOUCH, Section(OnuMutex, Skip)), Either(TOUCH, DataLock(TOUCH)))),
                 UNLOCK))
  }

  /** After refresh and synchronisation: the count, no row prefix, a bad instance, no
      such entry, or the column. */
  function LlidGet(): Code { Handler(Then(RefreshList(), Then(SyncTable(), LlidExits()))) }

  function LlidExits(): Code { Either(TOUCH_UNLOCK, RowExits()) }

  function RowExits(): Code { Either(UNLOCK, Either(UNLOCK, Then(AtIndex(), Either(UNLOCK, UNLOCK)))) }

  /** Likewise with four counts, three of them read under a nested lock. */
  function CpeGet(): Code { Handler(Then(RefreshList(), Then(SyncTable(), CpeExits()))) }

  function Counted(): Code { Then(DataLock(TOUCH), UNLOCK) }

  function CpeExits(): Code
  {
    Either(Counted(), Either(Counted(), Either(Counted(), Either(TOUCH_UNLOCK, RowExits()))))
  }

  /** VEIP parameters: the count under the lock, one of three errors found without it, or
      the lookup by name, which fails or delivers. */
  function VeipGet(): Code
  {
    Either(Handler(TOUCH_UNLOCK),
      Either(Skip, Either(Skip, Either(Skip, Handler(Then(AtIndex(), Either(UNLOCK, UNLOCK)))))))
  }

  // ------------------------------------------------------------ the other threads

  function OnuEvent(): Code { Then(Section(OnuMutex, Skip), Either(Telemetry(), Skip)) }

  function InterfaceEvent(): Code { Then(Repeat(Telemetry()), Then(Either(SyncTable(), Skip), Repeat(Telemetry()))) }

  /** One pass of the controller loop. */
  function LoopPass(): Code
  {
    var handle := Either(OnuEvent(), Either(InterfaceEvent(), Either(Telemetry(), Skip)));
    Then(Repeat(Then(Section(QueueMutex, Skip), handle)), Section(EventMutex, Skip))
  }

  /** One cycle of the poller thread. */
  function PollerCycle(): Code
  {
    Then(Section(PollerMutex, Skip),
      Then(Either(Then(CachedGet(), Then(CachedGet(), Then(RefreshList(), Either(Telemetry(), Skip)))), Skip),
        Section(PollerMutex, Skip)))
  }

  /** Enabling or retuning the poller, then saving the configuration under the controller mutex. */
  function PollerControl(): Code
  {
    Then(Section(PollerMutex, Skip), Either(Skip, Section(ControllerMutex, Repeat(Either(Skip, Telemetry())))))
  }

  function ControllerFlag(): Code { Section(ControllerMutex, Skip) }

  /** Everything a thread may do, in any order and any number of times. */
  function AnyOperation(): Code
  {
    Either(BaseGet(), Either(RecordGet(), Either(EponGet(), Either(LlidGet(), Either(CpeGet(), Either(VeipGet(),
      OtherOperation()))))))
  }

  function OtherOperation(): Code
  {
    Either(ClearStats(), Either(FactoryReset(), Either(ResetOnu(), Either(HalInit(), Either(InvalidateCache(),
      Either(LoopPass(), Either(PollerCycle(), Either(PollerControl(), Either(ControllerFlag(), Callback())))))))))
  }

  // ------------------------------------------------------------ neutrality

  /** Started at any depth of the data mutex, with the given other locks held, the
      code passes the check and returns with the same depth and locks. */
  ghost predicate Neutral(c: Code, others: set<Lock>)
  {
    forall n: nat :: Check(c, Held(n, others)) == Some(Held(n, others))
  }

  lemma NeutralThen(a: Code, b: Code, others: set<Lock>)
    requires Neutral(a, others) && Neutral(b, others)
    ensures Neutral(Then(a, b), others)
  {
  }

  lemma NeutralEither(a: Code, b: Code, others: set<Lock>)
    requires Neutral(a, others) && Neutral(b, others)
    ensures Neutral(Either(a, b), others)
  {
  }

  lemma NeutralRepeat(a: Code, others: set<Lock>)
    requires Neutral(a, others)
    ensures Neutral(Repeat(a), others)
  {
  }

  lemma NeutralLeaf(l: Lock, body: Code, others: set<Lock>)
    requires !l.DataMutex? && l !in others && (forall m | m in others :: Rank(m) < Rank(l))
    requires Neutral(body, others + {l})
    ensures Neutral(Section(l, body), others)
  {
    forall n: nat
      ensures Check(Section(l, body), Held(n, others)) == Some(Held(n, others))
    {
      var inside := Held(n, others + {l});
      assert inside.(others := inside.others - {l}) == Held(n, others);
      assert Check(body, inside) == Some(inside);
      assert Check(Then(body, Release(l)), inside) == Some(Held(n, others));
    }
  }

  /** Started with the data mutex held at any depth, the code passes the check and keeps
      that depth. */
  ghost predicate Inside(c: Code)
  {
    forall h: Held | h.depth > 0 && h.others == {} :: Check(c, h) == Some(h)
  }

  lemma NeutralInside(c: Code)
    requires Neutral(c, {})
    ensures Inside(c)
  {
  }

  lemma TouchInside()
    ensures Inside(TOUCH)
  {
  }

  lemma InsideThen(a: Code, b: Code)
    requires Inside(a) && Inside(b)
    ensures Inside(Then(a, b))
  {
  }

  lemma InsideEither(a: Code, b: Code)
    requires Inside(a) && Inside(b)
    ensures Inside(Either(a, b))
  {
  }

  lemma InsideRepeat(a: Code)
    requires Inside(a)
    ensures Inside(Repeat(a))
  {
  }

  lemma NeutralData(body: Code)
    requires Inside(body)
    ensures Neutral(DataLock(body), {})
  {
    forall n: nat
      ensures Check(DataLock(body), Held(n, {})) == Some(Held(n, {}))
    {
      var inside := Held(n + 1, {});
      assert Check(body, inside) == Some(inside);
      assert Check(Then(body, Release(DataMutex)), inside) == Some(Held(n, {}));
    }
  }

  lemma NeutralHal()
    ensures Neutral(Telemetry(), {}) && Neutral(Callback(), {}) && Neutral(HalCall(), {})
  {
    NeutralLeaf(TelemetryMutex, Skip, {});
    NeutralLeaf(QueueMutex, Skip, {});
    NeutralEither(Skip, Telemetry(), {});
    NeutralThen(Section(QueueMutex, Skip), Either(Skip, Telemetry()), {});
    NeutralRepeat(Callback(), {});
  }

  lemma NeutralLeaves()
    ensures forall l: Lock | !l.DataMutex? :: Neutral(Section(l, Skip), {})
  {
    forall l: Lock | !l.DataMutex?
      ensures Neutral(Section(l, Skip), {})
    {
      NeutralLeaf(l, Skip, {});
    }
  }

  /** Started with the data mutex taken once more, the code gives it back on every path. */
  ghost predicate Closing(c: Code)
  {
    forall n: nat :: Check(c, Held(n + 1, {})) == Some(Held(n, {}))
  }

  lemma UnlockCloses()
    ensures Closing(UNLOCK) && Closing(TOUCH_UNLOCK)
  {
    TouchInside();
    ThenCloses(TOUCH, UNLOCK);
  }

  lemma EitherCloses(a: Code, b: Code)
    requires Closing(a) && Closing(b)
    ensures Closing(Either(a, b))
  {
  }

  lemma ThenCloses(a: Code, b: Code)
    requires Inside(a) && Closing(b)
    ensures Closing(Then(a, b))
  {
    forall n: nat
      ensures Check(Then(a, b), Held(n + 1, {})) == Some(Held(n, {}))
    {
      assert Check(a, Held(n + 1, {})) == Some(Held(n + 1, {}));
    }
  }

  lemma ClosedThen(a: Code, b: Code)
    requires Closing(a) && Neutral(b, {})
    ensures Closing(Then(a, b))
  {
    forall n: nat
      ensures Check(Then(a, b), Held(n + 1, {})) == Some(Held(n, {}))
    {
      assert Check(a, Held(n + 1, {})) == Some(Held(n, {}));
    }
  }

  lemma LockedNeutral(body: Code)
    requires Closing(body)
    ensures Neutral(Then(Acquire(DataMutex), body), {})
  {
    forall n: nat
      ensures Check(Then(Acquire(DataMutex), body), Held(n, {})) == Some(Held(n, {}))
    {
      assert Check(body, Held(n + 1, {})) == Some(Held(n, {}));
    }
  }

  lemma HandlerNeutral(body: Code)
    requires Closing(body)
    ensures Neutral(Handler(body), {})
  {
    LockedNeutral(body);
    NeutralEither(Skip, Then(Acquire(DataMutex), body), {});
  }

  lemma GettersNeutral()
    ensures Neutral(CachedGet(), {}) && Neutral(AtIndex(), {}) && Neutral(SyncTable(), {}) && Neutral(RefreshList(), {})
  {
    NeutralHal();
    NeutralInside(HalCall());
    UnlockCloses();
    TouchInside();
    var stamp := Either(TOUCH_UNLOCK, UNLOCK);
    EitherCloses(TOUCH_UNLOCK, UNLOCK);
    ThenCloses(HalCall(), stamp);
    EitherCloses(UNLOCK, Then(HalCall(), stamp));
    ThenCloses(TOUCH, Either(UNLOCK, Then(HalCall(), stamp)));
    LockedNeutral(Then(TOUCH, Either(UNLOCK, Then(HalCall(), stamp))));
    EitherCloses(UNLOCK, TOUCH_UNLOCK);
    ThenCloses(TOUCH, Either(UNLOCK, TOUCH_UNLOCK));
    LockedNeutral(Then(TOUCH, Either(UNLOCK, TOUCH_UNLOCK)));
    SyncNeutral();
    ClosedThen(TOUCH_UNLOCK, SyncTable());
    EitherCloses(Then(TOUCH_UNLOCK, SyncTable()), stamp);
    var rest := Then(HalCall(), Either(Then(TOUCH_UNLOCK, SyncTable()), stamp));
    ThenCloses(HalCall(), Either(Then(TOUCH_UNLOCK, SyncTable()), stamp));
    ThenCloses(TOUCH, rest);
    LockedNeutral(Then(TOUCH, rest));
  }

  lemma SyncNeutral()
    requires Neutral(AtIndex(), {})
    ensures Neutral(SyncTable(), {})
  {
    var row := Either(Skip, Then(AtIndex(), TOUCH));
    TouchInside();
    NeutralInside(AtIndex());
    InsideThen(AtIndex(), TOUCH);
    InsideEither(Skip, Then(AtIndex(), TOUCH));
    InsideRepeat(row);
    InsideThen(TOUCH, Repeat(row));
    NeutralData(Then(TOUCH, Repeat(row)));
    NeutralEither(Skip, DataLock(Then(TOUCH, Repeat(row))), {});
    NeutralEither(Skip, Either(Skip, DataLock(Then(TOUCH, Repeat(row)))), {});
  }

  /** What handlers do between lock and unlock. */
  lemma BodiesInside()
    ensures Inside(TOUCH) && Inside(Skip) && Inside(Then(CachedGet(), TOUCH)) && Inside(CachedGet())
    ensures Inside(Then(TOUCH, Section(OnuMutex, Skip))) && Inside(DataLock(TOUCH))
    ensures Inside(RefreshList()) && Inside(SyncTable()) && Inside(AtIndex())
  {
    GettersNeutral();
    NeutralLeaves();
    TouchInside();
    NeutralInside(CachedGet());
    NeutralInside(RefreshList());
    NeutralInside(SyncTable());
    NeutralInside(AtIndex());
    NeutralInside(Section(OnuMutex, Skip));
    InsideThen(CachedGet(), TOUCH);
    InsideThen(TOUCH, Section(OnuMutex, Skip));
    NeutralData(TOUCH);
    NeutralInside(DataLock(TOUCH));
  }

  /** Every data-context GET handler passes the check, by whichever exit, with the recursive
      depth it started with, through nested getters, refreshes and synchronisations, and
      touches the data context only under its mutex. */
  lemma HandlersKeepDepth()
    ensures Neutral(BaseGet(), {}) && Neutral(RecordGet(), {}) && Neutral(EponGet(), {})
    ensures Neutral(LlidGet(), {}) && Neutral(CpeGet(), {}) && Neutral(VeipGet(), {})
  {
    BodiesInside();
    UnlockCloses();
    var onu, stats := Then(TOUCH, Section(OnuMutex, Skip)), Then(CachedGet(), TOUCH);
    InsideEither(onu, stats);
    InsideEither(Skip, Either(onu, stats));
    ThenCloses(Either(Skip, Either(onu, stats)), UNLOCK);
    HandlerNeutral(Then(Either(Skip, Either(onu, stats)), UNLOCK));
    EitherCloses(UNLOCK, TOUCH_UNLOCK);
    ThenCloses(CachedGet(), Either(UNLOCK, TOUCH_UNLOCK));
    HandlerNeutral(Then(CachedGet(), Either(UNLOCK, TOUCH_UNLOCK)));
    InsideEither(TOUCH, DataLock(TOUCH));
    InsideEither(onu, Either(TOUCH, DataLock(TOUCH)));
    InsideEither(stats, Either(onu, Either(TOUCH, DataLock(TOUCH))));
    ThenCloses(Either(stats, Either(onu, Either(TOUCH, DataLock(TOUCH)))), UNLOCK);
    HandlerNeutral(Then(Either(stats, Either(onu, Either(TOUCH, DataLock(TOUCH)))), UNLOCK));
    TableHandlersKeepDepth();
  }

  lemma ExitsClose()
    ensures Closing(LlidExits()) && Closing(CpeExits()) && Closing(Then(AtIndex(), Either(UNLOCK, UNLOCK)))
  {
    BodiesInside();
    UnlockCloses();
    var entry := Then(AtIndex(), Either(UNLOCK, UNLOCK));
    EitherCloses(UNLOCK, UNLOCK);
    ThenCloses(AtIndex(), Either(UNLOCK, UNLOCK));
    EitherCloses(UNLOCK, entry);
    EitherCloses(UNLOCK, Either(UNLOCK, entry));
    EitherCloses(TOUCH_UNLOCK, RowExits());
    var last := Either(TOUCH_UNLOCK, RowExits());
    ThenCloses(DataLock(TOUCH), UNLOCK);
    EitherCloses(Counted(), last);
    EitherCloses(Counted(), Either(Counted(), last));
    EitherCloses(Counted(), Either(Counted(), Either(Counted(), last)));
  }

  lemma TableHandlersKeepDepth()
    ensures Neutral(LlidGet(), {}) && Neutral(CpeGet(), {}) && Neutral(VeipGet(), {})
  {
    BodiesInside();
    UnlockCloses();
    ExitsClose();
    ThenCloses(SyncTable(), LlidExits());
    ThenCloses(RefreshList(), Then(SyncTable(), LlidExits()));
    HandlerNeutral(Then(RefreshList(), Then(SyncTable(), LlidExits())));
    ThenCloses(SyncTable(), CpeExits());
    ThenCloses(RefreshList(), Then(SyncTable(), CpeExits()));
    HandlerNeutral(Then(RefreshList(), Then(SyncTable(), CpeExits())));
    var row := Handler(Then(AtIndex(), Either(UNLOCK, UNLOCK)));
    HandlerNeutral(TOUCH_UNLOCK);
    HandlerNeutral(Then(AtIndex(), Either(UNLOCK, UNLOCK)));
    NeutralEither(Skip, row, {});
    NeutralEither(Skip, Either(Skip, row), {});
    NeutralEither(Skip, Either(Skip, Either(Skip, row)), {});
    NeutralEither(Handler(TOUCH_UNLOCK), Either(Skip, Either(Skip, Either(Skip, row))), {});
  }

  predicate IsGetHandler(c: Code)
  {
    || c == BaseGet() || c == RecordGet() || c == EponGet()
    || c == LlidGet() || c == CpeGet() || c == VeipGet()
  }

  /** In execution: among any other threads and under any schedule, a thread that calls a
      GET handler at any depth of the data mutex is back at that depth, with nothing else
      held, when the handler has returned, by whichever exit. */
  lemma HandlersReturnAtDepth(c: Code, n: nat, s: Threads, schedule: seq<(nat, bool)>, i: nat)
    requires IsGetHandler(c) && i < |s| && s[i] == Thread([c], Held(n, {})) && Exec(s, schedule).Some?
    ensures i < |Exec(s, schedule).value|
    ensures Exec(s, schedule).value[i].todo == [] ==> Exec(s, schedule).value[i].held == Held(n, {})
  {
    HandlersKeepDepth();
    CheckAllFront(c, [], Held(n, {}));
    assert [c] == [c] + [];
    RunLeaves(s, schedule, i, Held(n, {}));
  }

  /** And every unlock counts: a GET handler that lacks any single one of its lock
      operations, on whatever path, fails the check at every depth. */
  lemma MissingUnlockIsCaught(c: Code, d: Code, n: nat)
    requires IsGetHandler(c) && DropsOne(c, d)
    ensures Check(d, Held(n, {})) != Some(Held(n, {}))
  {
    HandlersKeepDepth();
    DropIsCaught(c, d, Held(n, {}));
  }

  lemma CommandsNeutral()
    ensures Neutral(ClearStats(), {}) && Neutral(FactoryReset(), {}) && Neutral(ResetOnu(), {})
    ensures Neutral(HalInit(), {}) && Neutral(InvalidateCache(), {}) && Neutral(ControllerFlag(), {})
  {
    NeutralHal();
    NeutralLeaves();
    TouchInside();
    var onu, stats := Section(OnuMutex, Skip), Section(StatsMutex, Skip);
    NeutralInside(stats);
    NeutralInside(onu);
    NeutralInside(HalCall());
    InsideThen(stats, TOUCH);
    NeutralData(Invalidated());
    NeutralEither(DataLock(Invalidated()), Skip, {});
    NeutralThen(HalCall(), Either(DataLock(Invalidated()), Skip), {});
    NeutralThen(DataLock(Invalidated()), Telemetry(), {});
    NeutralEither(Then(DataLock(Invalidated()), Telemetry()), Skip, {});
    NeutralThen(HalCall(), Either(Then(DataLock(Invalidated()), Telemetry()), Skip), {});
    NeutralEither(Telemetry(), Skip, {});
    NeutralThen(HalCall(), Either(Telemetry(), Skip), {});
    InsideEither(onu, Skip);
    InsideThen(HalCall(), Either(onu, Skip));
    InsideThen(TOUCH, Then(HalCall(), Either(onu, Skip)));
    NeutralData(Then(TOUCH, Then(HalCall(), Either(onu, Skip))));
    InsideThen(Invalidated(), onu);
    NeutralData(Then(Invalidated(), onu));
  }

  lemma ThreadsNeutral()
    ensures Neutral(LoopPass(), {}) && Neutral(PollerCycle(), {}) && Neutral(PollerControl(), {})
  {
    NeutralHal();
    GettersNeutral();
    NeutralLeaves();
    var note := Either(Telemetry(), Skip);
    NeutralEither(Telemetry(), Skip, {});
    NeutralThen(Section(OnuMutex, Skip), note, {});
    NeutralRepeat(Telemetry(), {});
    NeutralEither(SyncTable(), Skip, {});
    NeutralThen(Either(SyncTable(), Skip), Repeat(Telemetry()), {});
    NeutralThen(Repeat(Telemetry()), Then(Either(SyncTable(), Skip), Repeat(Telemetry())), {});
    NeutralEither(InterfaceEvent(), note, {});
    NeutralEither(OnuEvent(), Either(InterfaceEvent(), note), {});
    var one := Then(Section(QueueMutex, Skip), Either(OnuEvent(), Either(InterfaceEvent(), note)));
    NeutralThen(Section(QueueMutex, Skip), Either(OnuEvent(), Either(InterfaceEvent(), note)), {});
    NeutralRepeat(one, {});
    NeutralThen(Repeat(one), Section(EventMutex, Skip), {});
    var collect := Then(CachedGet(), Then(CachedGet(), Then(RefreshList(), note)));
    NeutralThen(RefreshList(), note, {});
    NeutralThen(CachedGet(), Then(RefreshList(), note), {});
    NeutralThen(CachedGet(), Then(CachedGet(), Then(RefreshList(), note)), {});
    NeutralEither(collect, Skip, {});
    NeutralThen(Either(collect, Skip), Section(PollerMutex, Skip), {});
    NeutralThen(Section(PollerMutex, Skip), Then(Either(collect, Skip), Section(PollerMutex, Skip)), {});
    SaveNeutral();
  }

  /** Saving the configuration reports bus failures while the controller mutex is held. */
  lemma SaveNeutral()
    ensures Neutral(PollerControl(), {})
  {
    var inside := {ControllerMutex};
    NeutralLeaves();
    assert {} + inside == inside;
    NeutralLeaf(TelemetryMutex, Skip, inside);
    NeutralEither(Skip, Telemetry(), inside);
    NeutralRepeat(Either(Skip, Telemetry()), inside);
    NeutralLeaf(ControllerMutex, Repeat(Either(Skip, Telemetry())), {});
    NeutralEither(Skip, Section(ControllerMutex, Repeat(Either(Skip, Telemetry()))), {});
    var save := Either(Skip, Section(ControllerMutex, Repeat(Either(Skip, Telemetry()))));
    NeutralThen(Section(PollerMutex, Skip), save, {});
  }

  lemma OperationsNeutral()
    ensures Neutral(AnyOperation(), {})
  {
    HandlersKeepDepth();
    CommandsNeutral();
    ThreadsNeutral();
    NeutralHal();
    var c0 := Either(ControllerFlag(), Callback());
    NeutralEither(ControllerFlag(), Callback(), {});
    NeutralEither(PollerControl(), c0, {});
    var c1 := Either(PollerControl(), c0);
    NeutralEither(PollerCycle(), c1, {});
    var c2 := Either(PollerCycle(), c1);
    NeutralEither(LoopPass(), c2, {});
    var c3 := Either(LoopPass(), c2);
    NeutralEither(InvalidateCache(), c3, {});
    var c4 := Either(InvalidateCache(), c3);
    NeutralEither(HalInit(), c4, {});
    var c5 := Either(HalInit(), c4);
    NeutralEither(ResetOnu(), c5, {});
    var c6 := Either(ResetOnu(), c5);
    NeutralEither(FactoryReset(), c6, {});
    var c7 := Either(FactoryReset(), c6);
    NeutralEither(ClearStats(), c7, {});
    assert OtherOperation() == Either(ClearStats(), c7);
    var d0 := Either(VeipGet(), OtherOperation());
    NeutralEither(VeipGet(), OtherOperation(), {});
    NeutralEither(CpeGet(), d0, {});
    var d1 := Either(CpeGet(), d0);
    NeutralEither(LlidGet(), d1, {});
    var d2 := Either(LlidGet(), d1);
    NeutralEither(EponGet(), d2, {});
    var d3 := Either(EponGet(), d2);
    NeutralEither(RecordGet(), d3, {});
    NeutralEither(BaseGet(), Either(RecordGet(), d3), {});
  }

  // ------------------------------------------------------------ any number of threads

  /** n threads, each running any operations in any order. */
  function Daemon(n: nat): Threads { seq(n, _ => Thread([Repeat(AnyOperation())], NOTHING)) }

  lemma DaemonDisciplined(n: nat)
    ensures CheckAll([Repeat(AnyOperation())], NOTHING) == Some(NOTHING)
    ensures Inv(Daemon(n))
  {
    OperationsNeutral();
    NeutralRepeat(AnyOperation(), {});
    CheckAllFront(Repeat(AnyOperation()), [], NOTHING);
    assert [Repeat(AnyOperation())] == [Repeat(AnyOperation())] + [];
    assert Check(Repeat(AnyOperation()), Held(0, {})) == Some(Held(0, {}));
  }

  /** The data layer is free of deadlock: in every state any number of threads can
      reach there is no wait cycle, and some thread can step unless all are done. */
  lemma DataLayerNeverDeadlocks(n: nat, schedule: seq<(nat, bool)>, chain: seq<nat>)
    requires Exec(Daemon(n), schedule).Some?
    ensures var t := Exec(Daemon(n), schedule).value;
            (forall i | 0 <= i < |t| :: t[i].todo == []) || exists i :: CanStep(t, i)
    ensures WaitChain(Exec(Daemon(n), schedule).value, chain) && |chain| >= 2 ==> chain[0] != chain[|chain| - 1]
  {
    DaemonDisciplined(n);
    NeverDeadlocked(Daemon(n), schedule);
    if WaitChain(Exec(Daemon(n), schedule).value, chain) && |chain| >= 2 {
      NoWaitCycle(Daemon(n), schedule, chain);
    }
  }

  /** And no two of them ever touch the data context at the same time. */
  lemma DataIsTouchedByOne(n: nat, schedule: seq<(nat, bool)>, i: nat, j: nat)
    requires Exec(Daemon(n), schedule).Some? && i != j
    ensures var t := Exec(Daemon(n), schedule).value;
            !(AboutToUse(t, i, DataMutex) && AboutToUse(t, j, DataMutex))
  {
    DaemonDisciplined(n);
    UsesAreExclusive(Daemon(n), schedule, i, j, DataMutex);
  }

  // ------------------------------------------------------------ exits

  /** The handlers' own exits: five for LLID and eight for CPE rows (beside the two of the
      index accessor, and for CPE the three of nested locks). */
  lemma ExitsAreSeparate()
    ensures Releases(AtIndex(), DataMutex) == 2
    ensures Releases(LlidExits(), DataMutex) == 5 + 2
    ensures Releases(CpeExits(), DataMutex) == 8 + 2 + 3
  {
    assert Releases(RowExits(), DataMutex) == 6;
    assert Releases(Counted(), DataMutex) == 2;
  }
}
