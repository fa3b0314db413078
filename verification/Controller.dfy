/** The controller: HAL callbacks, the per-event handlers, the batched drain of
    the event queue and the wait deadline of the main loop. */
module Controller {
  import opened CText
  import opened Interfaces
  import opened Telemetry
  import EventQueue
  import RowTables
  import WanManager

  datatype OnuStatus = LossOfSignal | DownstreamSignalDetected | Registration | Deregistration | OtherStatus(code: int)

  datatype Event =
    | OnuStatusEvent(status: OnuStatus)
    | InterfaceEvent(info: Info)
    | AlarmReport(alarm: AlarmInfo)
    | UnknownEvent

  datatype OnuState = OnuState(current: OnuStatus, previous: OnuStatus, lastChange: int)

  /** What the clock and the bus answer while one event is handled. */
  datatype Env = Env(
    now: int,
    virtualView: WanManager.View, phyView: WanManager.View,
    rowHandle: bool, rowContext: bool, rowAccepts: seq<bool>)

  /** Everything the handlers change, except telemetry. */
  datatype App = App(
    onu: OnuState, interfaces: seq<Info>, countCache: nat,
    rows: seq<RowTables.Row>, wan: WanManager.State)

  const FRESH: App := App(OnuState(LossOfSignal, LossOfSignal, 0), [], 0,
                          RowTables.Blank(RowTables.MAX_VEIP_INSTANCES), WanManager.INITIAL)

  // ------------------------------------------------------------ handler specifications

  function StatusMarker(s: OnuStatus): seq<Raise>
  {
    match s
    case LossOfSignal => [Simple(OnuLos)]
    case DownstreamSignalDetected => [Simple(OnuDownstreamSignalDetected)]
    case Registration => [Simple(OnuRegistration)]
    case Deregistration => [Simple(OnuDeregistration)]
    case OtherStatus(_) => []
  }

  function IfFailed(ok: bool): seq<Raise> { if ok then [] else [Simple(ErrorRbusPublishFailed)] }

  function NextOnu(o: OnuState, s: OnuStatus, now: int): OnuState { OnuState(s, o.current, now) }

  function NamesOf(list: seq<Info>): (names: seq<string>)
    ensures |names| == |list|
  {
    seq(|list|, i requires 0 <= i < |list| => list[i].name)
  }

  /** The VEIP synchronisation an interface event asks for. */
  function RowSync(list: seq<Info>, env: Env): RowTables.Sync
  {
    RowTables.Sync(|list|, NamesOf(list), env.rowAccepts)
  }

  // An interface event is handled in four stages, between which other threads run.

  const STAGES: nat := 4

  function Listed(a: App, lim: Limits, info: Info): App { a.(interfaces := Updated(a.interfaces, lim, info)) }

  function Reported(a: App, info: Info, env: Env): App
  {
    a.(wan := WanManager.AfterVirtual(a.wan, info.name, info.status == LinkUp, env.virtualView))
  }

  function Aggregated(a: App, env: Env): App
  {
    a.(wan := WanManager.AfterPhy(a.wan, AnyUp(a.interfaces), env.phyView))
  }

  predicate RowsDue(a: App) { |a.interfaces| != a.countCache }

  function Tabled(a: App, env: Env): App
  {
    if RowsDue(a) then
      a.(rows :=
           if env.rowHandle && env.rowContext then RowTables.Synced(a.rows, RowSync(a.interfaces, env)) else a.rows,
         countCache := |a.interfaces|)
    else a
  }

  function Stage(k: nat, a: App, lim: Limits, info: Info, env: Env): App
    requires k < STAGES
  {
    match k
    case 0 => Listed(a, lim, info)
    case 1 => Reported(a, info, env)
    case 2 => Aggregated(a, env)
    case _ => Tabled(a, env)
  }

  function StageRaises(k: nat, a: App, lim: Limits, info: Info, env: Env): seq<Raise>
    requires k < STAGES
  {
    match k
    case 0 => []
    case 1 =>
      IfFailed(WanManager.VirtualWritten(a.wan.index, info.name, env.virtualView))
      + [Interface(if info.status == LinkUp then IntfLinkUp else IntfLinkDown, info.name)]
    case 2 =>
      IfFailed(WanManager.PhyWritten(a.wan.index, env.phyView))
      + [Simple(if AnyUp(a.interfaces) then PhyStatusUp else PhyStatusDown)]
    case _ => IfFailed(RowsDue(a) ==> env.rowHandle && env.rowContext)
  }

  /** The state after the first k stages. */
  function Staged(k: nat, a: App, lim: Limits, info: Info, env: Env): App
    requires k <= STAGES
  {
    if k == 0 then a else Stage(k - 1, Staged(k - 1, a, lim, info, env), lim, info, env)
  }

  function StagedRaises(k: nat, a: App, lim: Limits, info: Info, env: Env): seq<Raise>
    requires k <= STAGES
  {
    if k == 0 then []
    else StagedRaises(k - 1, a, lim, info, env) + StageRaises(k - 1, Staged(k - 1, a, lim, info, env), lim, info, env)
  }

  /** All four stages together: the entry is updated, its Enable and then the
      aggregate are published, and the rows follow when the count changed. */
  lemma StagedIs(a: App, lim: Limits, info: Info, env: Env)
    ensures var list := Updated(a.interfaces, lim, info);
            Staged(STAGES, a, lim, info, env) ==
            App(a.onu, list, |list|,
                if |list| != a.countCache && env.rowHandle && env.rowContext
                then RowTables.Synced(a.rows, RowSync(list, env)) else a.rows,
                WanManager.AfterPhy(
                  WanManager.AfterVirtual(a.wan, info.name, info.status == LinkUp, env.virtualView),
                  AnyUp(list), env.phyView))
  {
    var a1 := Stage(0, a, lim, info, env);
    var a2 := Stage(1, a1, lim, info, env);
    var a3 := Stage(2, a2, lim, info, env);
    assert Staged(1, a, lim, info, env) == a1;
    assert Staged(2, a, lim, info, env) == a2;
    assert Staged(3, a, lim, info, env) == a3;
  }

  /** A list refresh from the HAL, which leaves everything alone when it fails. */
  function AfterRefresh(a: App, hal: Option<seq<Info>>, env: Env): App
  {
    match hal
    case None => a
    case Some(list) => Tabled(a.(interfaces := list), env)
  }

  /** The effect of handling one event. */
  function Handled(a: App, lim: Limits, e: Event, env: Env): App
  {
    match e
    case OnuStatusEvent(s) => a.(onu := NextOnu(a.onu, s, env.now))
    case InterfaceEvent(info) => Staged(STAGES, a, lim, info, env)
    case AlarmReport(_) => a
    case UnknownEvent => a
  }

  /** The telemetry one event raises, in order. */
  function Raises(a: App, lim: Limits, e: Event, env: Env): seq<Raise>
  {
    match e
    case OnuStatusEvent(s) => StatusMarker(s)
    case InterfaceEvent(info) => StagedRaises(STAGES, a, lim, info, env)
    case AlarmReport(alarm) => [Alarm(alarm)]
    case UnknownEvent => []
  }

  /** The state after a run of handled events, each with its environment. */
  function Folded(lim: Limits, run: seq<(Event, Env)>): App
  {
    if run == [] then FRESH
    else Handled(Folded(lim, run[..|run| - 1]), lim, run[|run| - 1].0, run[|run| - 1].1)
  }

  function FoldedRaises(lim: Limits, run: seq<(Event, Env)>): seq<Raise>
  {
    if run == [] then []
    else
      var front, last := run[..|run| - 1], run[|run| - 1];
      FoldedRaises(lim, front) + Raises(Folded(lim, front), lim, last.0, last.1)
  }

  /** Four consecutive stages are the handler. */
  lemma StagesInOrder(a: App, a1: App, a2: App, a3: App, lim: Limits, info: Info, env: Env)
    requires a1 == Stage(0, a, lim, info, env)
    requires a2 == Stage(1, a1, lim, info, env)
    requires a3 == Stage(2, a2, lim, info, env)
    ensures Handled(a, lim, InterfaceEvent(info), env) == Stage(3, a3, lim, info, env)
    ensures Raises(a, lim, InterfaceEvent(info), env) ==
            StageRaises(1, a1, lim, info, env) + StageRaises(2, a2, lim, info, env) + StageRaises(3, a3, lim, info, env)
  {
    assert Staged(0, a, lim, info, env) == a && StagedRaises(0, a, lim, info, env) == [];
    assert Staged(1, a, lim, info, env) == a1 && StagedRaises(1, a, lim, info, env) == [];
    assert Staged(2, a, lim, info, env) == a2
        && StagedRaises(2, a, lim, info, env) == StageRaises(1, a1, lim, info, env);
    assert Staged(3, a, lim, info, env) == a3
        && StagedRaises(3, a, lim, info, env) ==
           StageRaises(1, a1, lim, info, env) + StageRaises(2, a2, lim, info, env);
  }

  // ------------------------------------------------------------ the handlers

  class OnuRecord {
    var current: OnuStatus
    var previous: OnuStatus
    var lastChange: int

    function Contents(): OnuState
      reads this
    {
      OnuState(current, previous, lastChange)
    }

    constructor ()
      ensures Contents() == OnuState(LossOfSignal, LossOfSignal, 0)
    {
      current, previous, lastChange := LossOfSignal, LossOfSignal, 0;
    }

    method UpdateStatus(s: OnuStatus, now: int)
      modifies this
      ensures Contents() == NextOnu(old(Contents()), s, now)
    {
      previous := current;
      current := s;
      lastChange := now;
    }
  }

  class Context {
    const onu: OnuRecord
    const table: Table
    const rows: RowTables.Table
    const wan: WanManager.Client
    var countCache: nat
    var raised: seq<Raise>

    ghost predicate Valid()
      reads this, table, rows, rows.rows
    {
      table.Valid() && rows.Valid()
    }

    ghost function Contents(): App
      requires Valid()
      reads this, onu, table, table.slots, rows, rows.rows, wan
    {
      App(onu.Contents(), table.Entries(), countCache, rows.rows[..], wan.Contents())
    }

    ghost function Footprint(): set<object>
    {
      {this, onu, table, table.slots, rows, rows.rows, wan}
    }

    /** The queue shares no memory with the context. */
    ghost predicate Apart(q: EventQueue.Queue<Event>)
    {
      && q as object !in Footprint()
      && q.events as object !in Footprint()
    }

    constructor (lim: Limits)
      ensures Valid() && fresh(Footprint())
      ensures Contents() == FRESH && raised == [] && table.limits == lim
    {
      onu := new OnuRecord();
      table := new Table(lim);
      rows := new RowTables.Table(RowTables.MAX_VEIP_INSTANCES);
      wan := new WanManager.Client();
      countCache, raised := 0, [];
    }

    method ProcessOnuStatus(s: OnuStatus, env: Env)
      requires Valid()
      modifies this`raised, onu
      ensures Valid()
      ensures Contents() == Handled(old(Contents()), table.limits, OnuStatusEvent(s), env)
      ensures raised == old(raised) + Raises(old(Contents()), table.limits, OnuStatusEvent(s), env)
    {
      onu.UpdateStatus(s, env.now);
      var id: PlainId;
      match s {
        case LossOfSignal => id := OnuLos;
        case DownstreamSignalDetected => id := OnuDownstreamSignalDetected;
        case Registration => id := OnuRegistration;
        case Deregistration => id := OnuDeregistration;
        case OtherStatus(_) => return;
      }
      raised := raised + [Simple(id)];
    }

    method ReportVirtual(info: Info, env: Env)
      requires Valid()
      modifies this`raised, wan
      ensures Valid()
      ensures Contents() == Stage(1, old(Contents()), table.limits, info, env)
      ensures raised == old(raised) + StageRaises(1, old(Contents()), table.limits, info, env)
    {
      var ok := wan.UpdateVirtual(info.name, info.status == LinkUp, env.virtualView);
      if !ok { raised := raised + [Simple(ErrorRbusPublishFailed)]; }
      raised := raised + [Interface(if info.status == LinkUp then IntfLinkUp else IntfLinkDown, info.name)];
    }

    method ReportAggregate(info: Info, env: Env)
      requires Valid()
      modifies this`raised, wan
      ensures Valid()
      ensures Contents() == Stage(2, old(Contents()), table.limits, info, env)
      ensures raised == old(raised) + StageRaises(2, old(Contents()), table.limits, info, env)
    {
      var up := table.HasAnyUp();
      var ok := wan.NotifyPhy(up, env.phyView);
      if !ok { raised := raised + [Simple(ErrorRbusPublishFailed)]; }
      raised := raised + [Simple(if up then PhyStatusUp else PhyStatusDown)];
    }

    method SyncVeipRows(info: Info, env: Env)
      requires Valid()
      modifies this`raised, this`countCache, rows`bus, rows.rows
      ensures Valid()
      ensures Contents() == Stage(3, old(Contents()), table.limits, info, env)
      ensures raised == old(raised) + StageRaises(3, old(Contents()), table.limits, info, env)
    {
      if table.count != countCache {
        var ok := rows.SyncRows(env.rowHandle, env.rowContext,
                                RowTables.Sync(table.count, NamesOf(table.slots[..table.count]), env.rowAccepts));
        if !ok { raised := raised + [Simple(ErrorRbusPublishFailed)]; }
        countCache := table.count;
      }
    }

    method ProcessInterface(info: Info, env: Env)
      requires Valid()
      modifies Footprint()
      ensures Valid()
      ensures Contents() == Handled(old(Contents()), table.limits, InterfaceEvent(info), env)
      ensures raised == old(raised) + Raises(old(Contents()), table.limits, InterfaceEvent(info), env)
    {
      ghost var a, lim, r := Contents(), table.limits, raised;
      table.Update(info);
      ghost var a1 := Contents();
      ReportVirtual(info, env);
      ghost var a2 := Contents();
      ReportAggregate(info, env);
      ghost var a3 := Contents();
      SyncVeipRows(info, env);
      StagesInOrder(a, a1, a2, a3, lim, info, env);
    }

    /** The list getter of the data context: on success the HAL has replaced the list,
        and a changed count resynchronises the rows; PHY status is not recomputed. */
    method GetInterfaceList(hal: Option<seq<Info>>, env: Env) returns (ok: bool)
      requires Valid() && (hal.Some? ==> |hal.value| <= table.limits.maxInterfaces)
      modifies this`countCache, table`count, table.slots, rows`bus, rows.rows
      ensures Valid()
      ensures ok <==> hal.Some?
      ensures Contents() == AfterRefresh(old(Contents()), hal, env)
    {
      if hal.None? { return false; }
      table.Replace(hal.value);
      if table.count != countCache {
        countCache := table.count;
        var _ := rows.SyncRows(env.rowHandle, env.rowContext,
                               RowTables.Sync(table.count, NamesOf(table.slots[..table.count]), env.rowAccepts));
      }
      ok := true;
    }

    /** Takes the oldest event, if any, and handles it. */
    method ProcessOne(q: EventQueue.Queue<Event>, env: Env) returns (ok: bool)
      requires Valid() && q.Valid()
      requires Apart(q)
      modifies Footprint(), q
      ensures Valid() && q.Valid()
      ensures ok <==> old(q.Contents()) != []
      ensures q.Contents() == EventQueue.Popped(old(q.Contents()))
      ensures ok ==>
                && Contents() == Handled(old(Contents()), table.limits, old(q.Contents())[0], env)
                && raised == old(raised) + Raises(old(Contents()), table.limits, old(q.Contents())[0], env)
      ensures !ok ==> Contents() == old(Contents()) && raised == old(raised)
    {
      var e;
      ok, e := q.Pop();
      if !ok { return; }
      match e {
        case OnuStatusEvent(s) => ProcessOnuStatus(s, env);
        case InterfaceEvent(info) => ProcessInterface(info, env);
        case AlarmReport(alarm) => raised := raised + [Alarm(alarm)];
        case UnknownEvent =>
      }
    }

    /** A HAL callback: enqueues the event, or raises the queue-full marker; it is
        ignored while no controller is installed. */
    method Callback(installed: bool, q: EventQueue.Queue<Event>, e: Event)
      requires Valid() && q.Valid()
      requires Apart(q)
      modifies this`raised, q, q.events
      ensures Valid() && q.Valid() && Contents() == old(Contents())
      ensures !installed ==> q.Contents() == old(q.Contents()) && raised == old(raised)
      ensures installed ==>
                && q.Contents() == EventQueue.Pushed(old(q.Contents()), q.capacity as int, e)
                && raised == old(raised) + if |old(q.Contents())| < q.capacity as int then []
                                           else [Simple(ErrorEventQueueFull)]
    {
      if !installed { return; }
      var ok := q.Push(e);
      if !ok { raised := raised + [Simple(ErrorEventQueueFull)]; }
    }

    /** k events of the given queue contents have been handled since state a. */
    ghost predicate Drained(q: EventQueue.Queue<Event>, a: App, start: seq<Event>, before: seq<Raise>,
                            envs: seq<Env>, k: nat)
      reads Footprint(), q, q.events
    {
      && Valid() && q.Valid() && Apart(q)
      && k <= |start| && q.Contents() == start[k..]
      && before <= raised
      && IsPrefixHandled(a, table.limits, start, envs, k, Contents(), raised[|before|..])
    }

    method DrainOne(q: EventQueue.Queue<Event>, ghost a: App, ghost start: seq<Event>, ghost before: seq<Raise>,
                    envs: seq<Env>, k: nat)
      returns (ok: bool)
      requires Drained(q, a, start, before, envs, k) && k < |envs|
      modifies Footprint(), q
      ensures ok <==> k < |start|
      ensures Drained(q, a, start, before, envs, if ok then k + 1 else k)
    {
      ghost var b, all := Contents(), raised;
      ghost var more := if k < |start| then Raises(b, table.limits, start[k], envs[k]) else [];
      ok := ProcessOne(q, envs[k]);
      if ok {
        PrefixHandledStep(a, table.limits, start, envs, k, b, all[|before|..]);
        SuffixGrows(before, all, more);
      }
    }

    /** One pass of the main loop: events are handled until the queue is empty or
        the batch limit is reached. */
    method Drain(q: EventQueue.Queue<Event>, batch: nat, envs: seq<Env>) returns (processed: nat)
      requires Valid() && q.Valid() && Apart(q)
      requires 0 < batch < |envs|
      modifies Footprint(), q
      ensures processed == Min(batch, |old(q.Contents())|)
      ensures Drained(q, old(Contents()), old(q.Contents()), old(raised), envs, processed)
    {
      processed := 0;
      ghost var a, start, before := Contents(), q.Contents(), raised;
      while true
        invariant 0 <= processed < batch
        invariant Drained(q, a, start, before, envs, processed)
        decreases batch - processed
      {
        var ok := DrainOne(q, a, start, before, envs, processed);
        if !ok { break; }
        processed := processed + 1;
        if processed >= batch { break; }
      }
    }
  }

  const NANOS_PER_SECOND: nat := 1_000_000_000
  const WAIT_NANOS: nat := 500_000_000

  /** The deadline of the loop's wait: exactly 500 ms from now, with the nanoseconds
      below one second. */
  method WaitDeadline(seconds: int, nanos: nat) returns (s: int, n: nat)
    requires nanos < NANOS_PER_SECOND
    ensures s * NANOS_PER_SECOND + n == seconds * NANOS_PER_SECOND + nanos + WAIT_NANOS
    ensures n < NANOS_PER_SECOND
  {
    s, n := seconds, nanos + WAIT_NANOS;
    if n >= NANOS_PER_SECOND {
      s := s + 1;
      n := n - NANOS_PER_SECOND;
    }
  }

  /** Handling the first k events from state a led to state b and raised rs. */
  ghost predicate IsPrefixHandled(a: App, lim: Limits, es: seq<Event>, envs: seq<Env>, k: nat, b: App, rs: seq<Raise>)
  {
    && k <= |es| && k <= |envs|
    && b == Continued(a, lim, es[..k], envs[..k])
    && rs == ContinuedRaises(a, lim, es[..k], envs[..k])
  }

  lemma SuffixGrows<T>(before: seq<T>, all: seq<T>, more: seq<T>)
    requires before <= all
    ensures before <= all + more && (all + more)[|before|..] == all[|before|..] + more
  {
  }

  lemma PrefixHandledStep(a: App, lim: Limits, es: seq<Event>, envs: seq<Env>, k: nat, b: App, rs: seq<Raise>)
    requires k < |es| && k < |envs| && IsPrefixHandled(a, lim, es, envs, k, b, rs)
    ensures IsPrefixHandled(a, lim, es, envs, k + 1,
                            Handled(b, lim, es[k], envs[k]), rs + Raises(b, lim, es[k], envs[k]))
  {
    assert es[..k + 1][..k] == es[..k];
    assert envs[..k + 1][..k] == envs[..k];
  }

  /** Handling a sequence of events from any state. */
  function Continued(a: App, lim: Limits, es: seq<Event>, envs: seq<Env>): App
    requires |es| == |envs|
  {
    if es == [] then a
    else Handled(Continued(a, lim, es[..|es| - 1], envs[..|es| - 1]), lim, es[|es| - 1], envs[|es| - 1])
  }

  function ContinuedRaises(a: App, lim: Limits, es: seq<Event>, envs: seq<Env>): seq<Raise>
    requires |es| == |envs|
  {
    if es == [] then []
    else
      var n := |es| - 1;
      ContinuedRaises(a, lim, es[..n], envs[..n])
      + Raises(Continued(a, lim, es[..n], envs[..n]), lim, es[n], envs[n])
  }
}
