/** What the controller's state is after any run of handled events, in terms of
    the events alone. */
module ControllerRuns {
  import opened CText
  import opened Interfaces
  import opened Telemetry
  import opened Controller
  import RowPaths
  import RowTables
  import WanManager

  type Run = seq<(Event, Env)>

  // ------------------------------------------------------------ ONU status

  function Statuses(run: Run): seq<OnuStatus>
  {
    if run == [] then []
    else
      var e := run[|run| - 1].0;
      Statuses(run[..|run| - 1]) + if e.OnuStatusEvent? then [e.status] else []
  }

  /** The ONU state holds the last two reported statuses; before them it counts as LOS. */
  lemma {:induction false} OnuHoldsLastTwo(lim: Limits, run: Run)
    ensures var history := [LossOfSignal, LossOfSignal] + Statuses(run);
            && Folded(lim, run).onu.current == history[|history| - 1]
            && Folded(lim, run).onu.previous == history[|history| - 2]
  {
    if run != [] {
      var front := run[..|run| - 1];
      OnuHoldsLastTwo(lim, front);
      HandledKeeps(Folded(lim, front), lim, run[|run| - 1].0, run[|run| - 1].1);
    }
  }

  /** When each status was processed. */
  function StatusTimes(run: Run): seq<int>
  {
    if run == [] then []
    else
      var (e, env) := run[|run| - 1];
      StatusTimes(run[..|run| - 1]) + if e.OnuStatusEvent? then [env.now] else []
  }

  /** And it records when the last status was processed. */
  lemma {:induction false} OnuRecordsLastChange(lim: Limits, run: Run)
    ensures var times := [0] + StatusTimes(run);
            Folded(lim, run).onu.lastChange == times[|times| - 1]
  {
    if run != [] {
      var front := run[..|run| - 1];
      OnuRecordsLastChange(lim, front);
      HandledKeeps(Folded(lim, front), lim, run[|run| - 1].0, run[|run| - 1].1);
    }
  }

  /** Each kind of event touches its own part of the state. */
  lemma HandledKeeps(a: App, lim: Limits, e: Event, env: Env)
    ensures !e.OnuStatusEvent? ==> Handled(a, lim, e, env).onu == a.onu
    ensures !e.InterfaceEvent? ==> Handled(a, lim, e, env) == a.(onu := Handled(a, lim, e, env).onu)
    ensures e.InterfaceEvent? ==> Handled(a, lim, e, env).interfaces == Updated(a.interfaces, lim, e.info)
  {
    if e.InterfaceEvent? { StagedIs(a, lim, e.info, env); }
  }

  // ------------------------------------------------------------ interfaces and the WAN manager

  function InterfaceRun(run: Run): seq<(Info, Env)>
  {
    if run == [] then []
    else
      var (e, env) := run[|run| - 1];
      InterfaceRun(run[..|run| - 1]) + if e.InterfaceEvent? then [(e.info, env)] else []
  }

  function Infos(run: seq<(Info, Env)>): (infos: seq<Info>)
    ensures |infos| == |run|
  {
    seq(|run|, i requires 0 <= i < |run| => run[i].0)
  }

  /** The WAN manager calls of a run: per interface event the virtual-interface
      update and then the aggregate of the events so far. */
  function Calls(lim: Limits, run: seq<(Info, Env)>): (calls: seq<WanManager.Call>)
    ensures |calls| == 2 * |run|
  {
    if run == [] then []
    else
      var n := |run| - 1;
      Calls(lim, run[..n]) + [
        WanManager.Virtual(run[n].0.name, run[n].0.status == LinkUp, run[n].1.virtualView),
        WanManager.Phy(AnyUp(AfterEvents(lim, Infos(run))), run[n].1.phyView)]
  }

  lemma RunSnoc2(st: WanManager.State, calls: seq<WanManager.Call>, c: WanManager.Call, d: WanManager.Call)
    ensures WanManager.Run(st, calls + [c, d])
         == WanManager.After(WanManager.After(WanManager.Run(st, calls), c), d)
  {
    var all := calls + [c, d];
    assert all[..|all| - 1] == calls + [c];
    assert (calls + [c])[..|calls|] == calls;
  }

  lemma InterfaceRunSnoc(run: Run)
    requires run != []
    ensures var front := InterfaceRun(run[..|run| - 1]);
            var (e, env) := run[|run| - 1];
            InterfaceRun(run) == if e.InterfaceEvent? then front + [(e.info, env)] else front
  {
  }

  /** One more interface event in the list and in the calls. */
  lemma EventSnoc(lim: Limits, before: seq<(Info, Env)>, info: Info, env: Env)
    ensures var all := before + [(info, env)];
            && AfterEvents(lim, Infos(all)) == Updated(AfterEvents(lim, Infos(before)), lim, info)
            && Calls(lim, all) == Calls(lim, before) + [
                 WanManager.Virtual(info.name, info.status == LinkUp, env.virtualView),
                 WanManager.Phy(AnyUp(AfterEvents(lim, Infos(all))), env.phyView)]
  {
    var all := before + [(info, env)];
    assert all[..|before|] == before;
    assert Infos(all)[..|before|] == Infos(before);
  }

  /** The state a run of interface events leads to, as far as list and WAN manager go. */
  ghost predicate Follows(lim: Limits, irun: seq<(Info, Env)>, a: App)
  {
    && a.interfaces == AfterEvents(lim, Infos(irun))
    && a.wan == WanManager.Run(WanManager.INITIAL, Calls(lim, irun))
  }

  lemma FollowsStep(lim: Limits, irun: seq<(Info, Env)>, a: App, info: Info, env: Env)
    requires Follows(lim, irun, a)
    ensures Follows(lim, irun + [(info, env)], Staged(STAGES, a, lim, info, env))
  {
    EventSnoc(lim, irun, info, env);
    StagedIs(a, lim, info, env);
    RunSnoc2(WanManager.INITIAL, Calls(lim, irun),
             WanManager.Virtual(info.name, info.status == LinkUp, env.virtualView),
             WanManager.Phy(AnyUp(AfterEvents(lim, Infos(irun + [(info, env)]))), env.phyView));
  }

  lemma {:induction false} RunFollows(lim: Limits, run: Run)
    ensures Follows(lim, InterfaceRun(run), Folded(lim, run))
  {
    if run != [] {
      var front := run[..|run| - 1];
      var (e, env) := run[|run| - 1];
      RunFollows(lim, front);
      InterfaceRunSnoc(run);
      if e.InterfaceEvent? {
        FollowsStep(lim, InterfaceRun(front), Folded(lim, front), e.info, env);
      } else {
        HandledKeeps(Folded(lim, front), lim, e, env);
      }
    }
  }

  /** The list depends on the interface events only, and the WAN manager has seen
      exactly their calls. */
  lemma FoldedInterfaces(lim: Limits, run: Run)
    ensures Folded(lim, run).interfaces == AfterEvents(lim, Infos(InterfaceRun(run)))
    ensures Folded(lim, run).wan == WanManager.Run(WanManager.INITIAL, Calls(lim, InterfaceRun(run)))
  {
    RunFollows(lim, run);
  }

  lemma {:induction false} CallsAt(lim: Limits, run: seq<(Info, Env)>, k: nat)
    requires k < |run|
    ensures Calls(lim, run)[2 * k + 1] == WanManager.Phy(AnyUp(AfterEvents(lim, Infos(run)[..k + 1])), run[k].1.phyView)
  {
    var n := |run| - 1;
    if k < n {
      CallsAt(lim, run[..n], k);
      assert Infos(run[..n])[..k + 1] == Infos(run)[..k + 1];
    } else {
      assert Infos(run)[..k + 1] == Infos(run);
    }
  }

  /** The k-th interface event is the last one whose aggregate reached the WAN manager. */
  ghost predicate LastPublished(lim: Limits, run: seq<(Info, Env)>, k: nat)
  {
    k < |run| && WanManager.IsLastPhyWritten(Calls(lim, run), 2 * k + 1)
  }

  /** With arbitrary bus failures the WAN manager holds, under the discovered index,
      the aggregate at the last event whose publish succeeded: up exactly when the
      latest event of some name tracked by then was up. */
  lemma PublishedAggregate(lim: Limits, run: Run, k: nat)
    requires LastPublished(lim, InterfaceRun(run), k)
    ensures var wan := Folded(lim, run).wan;
            var events := Infos(InterfaceRun(run))[..k + 1];
            && wan.phy.Keys == {wan.index}
            && (wan.phy[wan.index] <==>
                  exists i | 0 <= i < |Tracked(lim, events)| ::
                    Latest(events, Tracked(lim, events)[i], lim.nameLength).status == LinkUp)
  {
    var irun := InterfaceRun(run);
    FoldedInterfaces(lim, run);
    CallsAt(lim, irun, k);
    WanManager.PhyHoldsLastWritten(Calls(lim, irun), 2 * k + 1);
    AggregateIsSomeTrackedUp(lim, Infos(irun)[..k + 1]);
  }

  // ------------------------------------------------------------ telemetry of an interface event

  const BUS_ERROR: Raise := Simple(ErrorRbusPublishFailed)

  function WithoutBusErrors(rs: seq<Raise>): seq<Raise>
  {
    if rs == [] then []
    else WithoutBusErrors(rs[..|rs| - 1]) + if rs[|rs| - 1] == BUS_ERROR then [] else [rs[|rs| - 1]]
  }

  function BusErrors(rs: seq<Raise>): nat
  {
    if rs == [] then 0 else BusErrors(rs[..|rs| - 1]) + if rs[|rs| - 1] == BUS_ERROR then 1 else 0
  }

  lemma {:induction false} BusErrorsConcat(xs: seq<Raise>, ys: seq<Raise>)
    ensures WithoutBusErrors(xs + ys) == WithoutBusErrors(xs) + WithoutBusErrors(ys)
    ensures BusErrors(xs + ys) == BusErrors(xs) + BusErrors(ys)
  {
    if ys == [] {
      assert xs + ys == xs;
    } else {
      var front, last := ys[..|ys| - 1], ys[|ys| - 1];
      BusErrorsConcat(xs, front);
      assert (xs + ys)[..|xs + ys| - 1] == xs + front;
      if last != BUS_ERROR { Associative(WithoutBusErrors(xs), WithoutBusErrors(front), [last]); }
    }
  }

  lemma OneRaise(r: Raise)
    ensures WithoutBusErrors([r]) == (if r == BUS_ERROR then [] else [r])
    ensures BusErrors([r]) == (if r == BUS_ERROR then 1 else 0)
  {
    assert [r][..0] == [];
  }

  /** What a bus call followed by its marker adds. */
  lemma FailureThenMarker(rs: seq<Raise>, ok: bool, marker: Raise)
    requires marker != BUS_ERROR
    ensures WithoutBusErrors(rs + (IfFailed(ok) + [marker])) == WithoutBusErrors(rs) + [marker]
    ensures BusErrors(rs + (IfFailed(ok) + [marker])) == BusErrors(rs) + if ok then 0 else 1
  {
    BusErrorsConcat(rs, IfFailed(ok) + [marker]);
    BusErrorsConcat(IfFailed(ok), [marker]);
    OneRaise(marker);
    OneRaise(BUS_ERROR);
  }

  function Fail(ok: bool): nat { if ok then 0 else 1 }

  /** What the later stages find: the updated list, the index after discovery and the
      count cache from before the event. */
  lemma StagedParts(a: App, lim: Limits, info: Info, env: Env)
    ensures Staged(1, a, lim, info, env) == a.(interfaces := Updated(a.interfaces, lim, info))
    ensures var a2 := Staged(2, a, lim, info, env);
            && a2.interfaces == Updated(a.interfaces, lim, info) && a2.rows == a.rows
            && a2.wan.index == WanManager.Discovered(a.wan.index, env.virtualView)
    ensures var a3 := Staged(3, a, lim, info, env);
            && a3.interfaces == Updated(a.interfaces, lim, info) && a3.rows == a.rows
            && a3.countCache == a.countCache
  {
    var a1 := Stage(0, a, lim, info, env);
    var a2 := Stage(1, a1, lim, info, env);
    assert Staged(0, a, lim, info, env) == a;
    assert Staged(1, a, lim, info, env) == a1;
    assert Staged(2, a, lim, info, env) == a2;
  }

  lemma RaisesUpTo(k: nat, a: App, lim: Limits, info: Info, env: Env)
    requires k < STAGES
    ensures StagedRaises(k + 1, a, lim, info, env) ==
            StagedRaises(k, a, lim, info, env) + StageRaises(k, Staged(k, a, lim, info, env), lim, info, env)
    ensures k == 0 ==> StagedRaises(k + 1, a, lim, info, env) == []
  {
  }

  /** An interface event raises its link marker and then the marker of the aggregate
      it leads to, and one bus-error marker for each of the three bus operations that
      failed, nothing else. */
  lemma InterfaceTelemetry(a: App, lim: Limits, info: Info, env: Env)
    ensures var rs := Raises(a, lim, InterfaceEvent(info), env);
            var list := Updated(a.interfaces, lim, info);
            var index := WanManager.Discovered(a.wan.index, env.virtualView);
            && WithoutBusErrors(rs) ==
                 [Interface(if info.status == LinkUp then IntfLinkUp else IntfLinkDown, info.name),
                  Simple(if AnyUp(list) then PhyStatusUp else PhyStatusDown)]
            && BusErrors(rs) ==
                 Fail(WanManager.VirtualWritten(a.wan.index, info.name, env.virtualView))
                 + Fail(WanManager.PhyWritten(index, env.phyView))
                 + Fail(|list| != a.countCache ==> env.rowHandle && env.rowContext)
  {
    StagedParts(a, lim, info, env);
    RaisesUpTo(0, a, lim, info, env);
    RaisesUpTo(1, a, lim, info, env);
    RaisesUpTo(2, a, lim, info, env);
    RaisesUpTo(3, a, lim, info, env);
    var list := Updated(a.interfaces, lim, info);
    var link := Interface(if info.status == LinkUp then IntfLinkUp else IntfLinkDown, info.name);
    var phy := Simple(if AnyUp(list) then PhyStatusUp else PhyStatusDown);
    var index := WanManager.Discovered(a.wan.index, env.virtualView);
    var due := |list| != a.countCache ==> env.rowHandle && env.rowContext;
    ThreeParts(WanManager.VirtualWritten(a.wan.index, info.name, env.virtualView), link,
               WanManager.PhyWritten(index, env.phyView), phy, due);
  }

  lemma ThreeParts(ok1: bool, link: Raise, ok2: bool, phy: Raise, ok3: bool)
    requires link != BUS_ERROR && phy != BUS_ERROR
    ensures var rs := [] + (IfFailed(ok1) + [link]) + (IfFailed(ok2) + [phy]) + IfFailed(ok3);
            WithoutBusErrors(rs) == [link, phy] && BusErrors(rs) == Fail(ok1) + Fail(ok2) + Fail(ok3)
  {
    var one := [] + (IfFailed(ok1) + [link]);
    var two := one + (IfFailed(ok2) + [phy]);
    FailureThenMarker([], ok1, link);
    FailureThenMarker(one, ok2, phy);
    BusErrorsConcat(two, IfFailed(ok3));
    OneRaise(BUS_ERROR);
  }

  // ------------------------------------------------------------ VEIP rows

  /** The name field of every event holds at most nameLength characters. */
  predicate NamesFit(lim: Limits, infos: seq<Info>) { forall i | 0 <= i < |infos| :: |infos[i].name| <= lim.nameLength }

  /** Every registered row carries the instance and the (bounded) name of the
      interface at its index. */
  predicate RowsCoherent(a: App)
  {
    forall i | 0 <= i < |a.rows| && a.rows[i].registered ::
      && i < |a.interfaces|
      && a.rows[i].instance == i + 1
      && a.rows[i].name == Truncate(a.interfaces[i].name, RowTables.VEIP_NAME_SIZE)
  }

  /** Overwriting keeps the name, appending adds an index. */
  lemma UpdateKeepsCoherent(a: App, lim: Limits, info: Info)
    requires RowsCoherent(a) && |info.name| <= lim.nameLength && NamesFit(lim, a.interfaces)
    ensures RowsCoherent(a.(interfaces := Updated(a.interfaces, lim, info)))
    ensures NamesFit(lim, Updated(a.interfaces, lim, info))
  {
    PositionSpec(a.interfaces, info.name, lim.nameLength);
    var p := Position(a.interfaces, info.name, lim.nameLength);
    if p < |a.interfaces| { SameNameIsSameKey(a.interfaces[p].name, info.name, lim.nameLength); }
    var list := Updated(a.interfaces, lim, info);
    assert forall i | 0 <= i < |a.interfaces| :: list[i].name == a.interfaces[i].name;
  }

  /** New rows copy the current names. */
  lemma TabledKeepsCoherent(a: App, env: Env)
    requires RowsCoherent(a)
    ensures RowsCoherent(Tabled(a, env))
  {
  }

  /** Coherence looks at the list and the rows only. */
  lemma CoherenceDependsOn(a: App, b: App)
    requires RowsCoherent(a) && a.interfaces == b.interfaces && a.rows == b.rows
    ensures RowsCoherent(b)
  {
  }

  /** Every stage of an interface event keeps rows and interface list coherent. */
  lemma CoherentStages(k: nat, a: App, lim: Limits, info: Info, env: Env)
    requires k <= STAGES && RowsCoherent(a) && |info.name| <= lim.nameLength && NamesFit(lim, a.interfaces)
    ensures var b := Staged(k, a, lim, info, env);
            && RowsCoherent(b) && NamesFit(lim, b.interfaces) && |b.rows| == |a.rows|
            && b.interfaces == if k == 0 then a.interfaces else Updated(a.interfaces, lim, info)
  {
    if 0 < k {
      UpdateKeepsCoherent(a, lim, info);
      StagedParts(a, lim, info, env);
      var listed := a.(interfaces := Updated(a.interfaces, lim, info));
      if k < STAGES {
        CoherenceDependsOn(listed, Staged(k, a, lim, info, env));
      } else {
        var a3 := Staged(3, a, lim, info, env);
        CoherenceDependsOn(listed, a3);
        TabledKeepsCoherent(a3, env);
        assert Staged(k, a, lim, info, env) == Tabled(a3, env);
      }
    }
  }

  lemma {:induction false} RowsStayCoherent(lim: Limits, run: Run)
    requires NamesFit(lim, Infos(InterfaceRun(run)))
    ensures RowsCoherent(Folded(lim, run)) && NamesFit(lim, Folded(lim, run).interfaces)
    ensures |Folded(lim, run).rows| == RowTables.MAX_VEIP_INSTANCES
  {
    if run != [] {
      var front := run[..|run| - 1];
      var (e, env) := run[|run| - 1];
      assert Infos(InterfaceRun(front)) <= Infos(InterfaceRun(run));
      RowsStayCoherent(lim, front);
      if e.InterfaceEvent? {
        assert Infos(InterfaceRun(run))[|InterfaceRun(front)|] == e.info;
        CoherentStages(STAGES, Folded(lim, front), lim, e.info, env);
      } else {
        HandledKeeps(Folded(lim, front), lim, e, env);
      }
    }
  }

  ghost predicate DistinctNames(list: seq<Info>, n: nat)
  {
    forall i, j | 0 <= i < j < |list| :: Key(list[i].name, n) != Key(list[j].name, n)
  }

  lemma EventsKeepNamesDistinct(lim: Limits, events: seq<Info>)
    ensures DistinctNames(AfterEvents(lim, events), lim.nameLength)
  {
    NormalForm(lim, events);
  }

  /** In a coherent state the name recorded for row i finds the interface at index i
      exactly when that interface's name fits the row's name field; a longer name is
      never found under its row. */
  lemma CoherentRowReads(a: App, n: nat, i: nat)
    requires RowsCoherent(a) && DistinctNames(a.interfaces, n)
    requires i < |a.rows| && a.rows[i].registered && |a.interfaces[i].name| <= n
    ensures Lookup(a.interfaces, a.rows[i].name, n) == Some(a.interfaces[i])
            <==> |a.interfaces[i].name| < RowTables.VEIP_NAME_SIZE
  {
    var name, stored := a.interfaces[i].name, a.rows[i].name;
    SameNameIsSameKey(name, stored, n);
    if |name| < RowTables.VEIP_NAME_SIZE {
      forall j | 0 <= j < i
        ensures !SameName(a.interfaces[j].name, stored, n)
      {
        SameNameIsSameKey(a.interfaces[j].name, stored, n);
      }
      PositionIs(a.interfaces, stored, n, i);
    } else {
      assert !SameName(name, stored, n);
      PositionSpec(a.interfaces, stored, n);
      var k := Position(a.interfaces, stored, n);
      assert k < |a.interfaces| ==> a.interfaces[k] != a.interfaces[i];
    }
  }

  /** In every run whose list changes come from events, reading row i finds the
      interface at index i with its latest event, exactly when that interface's
      name fits the row's name field. */
  lemma RowReadsLatest(lim: Limits, run: Run, i: nat)
    requires NamesFit(lim, Infos(InterfaceRun(run)))
    requires i < |Folded(lim, run).rows| && Folded(lim, run).rows[i].registered
    ensures var a := Folded(lim, run);
            var events := Infos(InterfaceRun(run));
            && i < |a.interfaces| && i < |Tracked(lim, events)|
            && a.interfaces[i] == Latest(events, Tracked(lim, events)[i], lim.nameLength)
            && (Lookup(a.interfaces, a.rows[i].name, lim.nameLength) == Some(a.interfaces[i])
                <==> |a.interfaces[i].name| < RowTables.VEIP_NAME_SIZE)
  {
    RowsStayCoherent(lim, run);
    FoldedInterfaces(lim, run);
    NormalForm(lim, Infos(InterfaceRun(run)));
    EventsKeepNamesDistinct(lim, Infos(InterfaceRun(run)));
    CoherentRowReads(Folded(lim, run), lim.nameLength, i);
  }

  /** The reply to a GET of column c of row i. */
  function VeipGet(a: App, lim: Limits, i: nat, c: nat, wild: u32): RowPaths.Reply<Info>
    requires c < |RowPaths.VEIP_COLUMNS|
  {
    var path := RowPaths.VeipPath(i + 1, RowPaths.VEIP_COLUMNS[c]);
    RowPaths.VeipReply(path, a.rows, a.interfaces, lim.nameLength, wild)
  }

  /** A GET of the Name or Status of a registered row answers with the latest event
      of the row's interface, and misses that entry when its name has 64 characters
      or more. */
  lemma VeipGetReadsLatest(lim: Limits, run: Run, i: nat, c: nat, wild: u32)
    requires NamesFit(lim, Infos(InterfaceRun(run))) && c < |RowPaths.VEIP_COLUMNS|
    requires i < |Folded(lim, run).rows| && Folded(lim, run).rows[i].registered
    ensures var a := Folded(lim, run);
            var events := Infos(InterfaceRun(run));
            && i < |Tracked(lim, events)|
            && var latest := Latest(events, Tracked(lim, events)[i], lim.nameLength);
               VeipGet(a, lim, i, c, wild) == RowPaths.Answer(c, latest)
               <==> |latest.name| < RowTables.VEIP_NAME_SIZE
  {
    RowReadsLatest(lim, run, i);
    RowsStayCoherent(lim, run);
    var a := Folded(lim, run);
    RowPaths.VeipPathRoundTrip(i + 1, c, a.rows, a.interfaces, lim.nameLength, wild);
  }

  /** Where the HAL's name field has room for them, such names occur: after one event for
      an interface with a 64-character name its row is registered, and a GET on it finds
      nothing. */
  lemma LongNameIsNotFound(wild: u32)
    ensures exists lim: Limits, run: Run ::
              && lim.nameLength == RowTables.VEIP_NAME_SIZE && NamesFit(lim, Infos(InterfaceRun(run)))
              && var a := Folded(lim, run);
                 && |a.rows| > 0 && a.rows[0].registered && |a.interfaces| == 1
                 && VeipGet(a, lim, 0, 1, wild) == RowPaths.NoSuchElement
  {
    var lim := Limits(1, RowTables.VEIP_NAME_SIZE);
    var view := WanManager.View(false, None, [], None, [], false);
    var env := Env(0, view, view, true, true, [true]);
    var info := Info(seq(RowTables.VEIP_NAME_SIZE, _ => 'v'), LinkUp);
    var run := [(InterfaceEvent(info), env)];
    OneEvent(lim, info, env);
    var a := Folded(lim, run);
    var stored := a.rows[0].name;
    assert |stored| < |info.name|;
    SameNameIsSameKey(info.name, stored, lim.nameLength);
    PositionSpec(a.interfaces, stored, lim.nameLength);
    RowPaths.VeipPathRoundTrip(1, 1, a.rows, a.interfaces, lim.nameLength, wild);
  }

  /** The state after a first interface event whose row is taken. */
  lemma OneEvent(lim: Limits, info: Info, env: Env)
    requires lim.maxInterfaces > 0 && env.rowHandle && env.rowContext && env.rowAccepts == [true]
    ensures var run := [(InterfaceEvent(info), env)];
            var a := Folded(lim, run);
            && Infos(InterfaceRun(run)) == [info]
            && a.interfaces == [info] && |a.rows| == RowTables.MAX_VEIP_INSTANCES
            && a.rows[0] == RowTables.Row(1, Truncate(info.name, RowTables.VEIP_NAME_SIZE), true)
  {
    var run := [(InterfaceEvent(info), env)];
    assert run[..0] == [];
    assert InterfaceRun(run) == [(info, env)];
    assert Folded(lim, run) == Handled(FRESH, lim, InterfaceEvent(info), env);
    StagedIs(FRESH, lim, info, env);
    assert Updated([], lim, info) == [info];
  }

  // ------------------------------------------------------------ VEIP rows and list refreshes

  /** Entry j is the first of the list that carries the name. */
  ghost predicate FirstNamed(list: seq<Info>, name: string, n: nat, j: nat)
  {
    && j < |list| && Key(list[j].name, n) == Key(name, n)
    && forall k | 0 <= k < j :: Key(list[k].name, n) != Key(name, n)
  }

  predicate HasName(list: seq<Info>, name: string, n: nat)
  {
    exists j :: 0 <= j < |list| && Key(list[j].name, n) == Key(name, n)
  }

  lemma LookupIsFirstNamed(list: seq<Info>, name: string, n: nat)
    ensures Lookup(list, name, n).Some? <==> HasName(list, name, n)
    ensures forall j: nat | FirstNamed(list, name, n, j) :: Lookup(list, name, n) == Some(list[j])
  {
    PositionSpec(list, name, n);
    forall j | 0 <= j < |list|
      ensures SameName(list[j].name, name, n) <==> Key(list[j].name, n) == Key(name, n)
    {
      SameNameIsSameKey(list[j].name, name, n);
    }
    forall j: nat | FirstNamed(list, name, n, j)
      ensures Lookup(list, name, n) == Some(list[j])
    {
      PositionIs(list, name, n, j);
    }
  }

  /** What a GET on a registered row answers: the first entry that carries the recorded
      name, wherever it stands, or nothing when the list has none. */
  lemma VeipGetIs(a: App, lim: Limits, i: nat, c: nat, wild: u32)
    requires c < |RowPaths.VEIP_COLUMNS| && |a.rows| == RowTables.MAX_VEIP_INSTANCES
    requires i < |a.rows| && a.rows[i].registered
    ensures forall j: nat | FirstNamed(a.interfaces, a.rows[i].name, lim.nameLength, j) ::
              VeipGet(a, lim, i, c, wild) == RowPaths.Answer(c, a.interfaces[j])
    ensures VeipGet(a, lim, i, c, wild) == RowPaths.NoSuchElement
            <==> !HasName(a.interfaces, a.rows[i].name, lim.nameLength)
  {
    LookupIsFirstNamed(a.interfaces, a.rows[i].name, lim.nameLength);
    RowPaths.VeipPathRoundTrip(i + 1, c, a.rows, a.interfaces, lim.nameLength, wild);
  }

  /** After a list refresh in any coherent state, a GET on a row registered for the
      interface at its index answers with the first delivered entry that carries that
      interface's (bounded) name, in whatever order the HAL delivers them, and finds
      nothing exactly when no delivered entry does. */
  lemma GetAfterRefresh(a: App, lim: Limits, list: seq<Info>, env: Env, i: nat, c: nat, wild: u32)
    requires RowsCoherent(a) && |a.rows| == RowTables.MAX_VEIP_INSTANCES
    requires i < |a.rows| && a.rows[i].registered && c < |RowPaths.VEIP_COLUMNS|
    ensures var name := Truncate(a.interfaces[i].name, RowTables.VEIP_NAME_SIZE);
            var reply := VeipGet(AfterRefresh(a, Some(list), env), lim, i, c, wild);
            && (forall j: nat | FirstNamed(list, name, lim.nameLength, j) :: reply == RowPaths.Answer(c, list[j]))
            && (reply == RowPaths.NoSuchElement <==> !HasName(list, name, lim.nameLength))
  {
    var b := AfterRefresh(a, Some(list), env);
    assert b.interfaces == list && |b.rows| == |a.rows| && b.rows[i] == a.rows[i];
    VeipGetIs(b, lim, i, c, wild);
  }

  /** Such a miss happens: a row registered for one interface survives a refresh that
      delivers another one in its place, and a GET on it then finds nothing. */
  lemma RefreshOrphansRow(wild: u32)
    ensures exists lim: Limits, run: Run, list: seq<Info>, env: Env ::
              && |list| <= lim.maxInterfaces
              && var a := AfterRefresh(Folded(lim, run), Some(list), env);
                 && |a.rows| > 0 && a.rows[0].registered && |a.interfaces| == 1
                 && VeipGet(a, lim, 0, 1, wild) == RowPaths.NoSuchElement
  {
    var lim := Limits(1, 16);
    var view := WanManager.View(false, None, [], None, [], false);
    var env := Env(0, view, view, true, true, [true]);
    var first, second := Info("veip0", LinkUp), Info("veip1", LinkUp);
    assert first.name[4] != second.name[4];
    ReplacedIsNotFound(lim, first, second, env, wild);
  }

  /** A single interface, replaced by one of another name. */
  lemma ReplacedIsNotFound(lim: Limits, first: Info, second: Info, env: Env, wild: u32)
    requires lim.maxInterfaces > 0 && env.rowHandle && env.rowContext && env.rowAccepts == [true]
    requires |first.name| <= lim.nameLength && |second.name| <= lim.nameLength && first.name != second.name
    requires |first.name| < RowTables.VEIP_NAME_SIZE
    ensures var run := [(InterfaceEvent(first), env)];
            var a := AfterRefresh(Folded(lim, run), Some([second]), env);
            && |a.rows| > 0 && a.rows[0].registered && |a.interfaces| == 1
            && VeipGet(a, lim, 0, 1, wild) == RowPaths.NoSuchElement
  {
    var before := Folded(lim, [(InterfaceEvent(first), env)]);
    OneEvent(lim, first, env);
    var a := AfterRefresh(before, Some([second]), env);
    assert a.interfaces == [second] && |a.rows| == |before.rows| && a.rows[0] == before.rows[0];
    assert !HasName(a.interfaces, a.rows[0].name, lim.nameLength);
    VeipGetIs(a, lim, 0, 1, wild);
  }

  // Runs that mix the stages of interface events with list refreshes, stage by stage and
  // in any order: the poller thread refreshes the list between any two stages.

  datatype Step =
    | EventStage(k: nat, info: Info, env: Env)   // stage k of an interface event
    | Delivered(list: seq<Info>)                 // a refresh up to its unlock
    | Resynced(env: Env)                         // the row synchronisation after it
    | CountReset                                 // cache invalidation

  function AfterStep(a: App, lim: Limits, step: Step): App
  {
    match step
    case EventStage(k, info, env) => if k < STAGES then Stage(k, a, lim, info, env) else a
    case Delivered(list) => a.(interfaces := list, countCache := |list|)
    case Resynced(env) =>
      if env.rowHandle && env.rowContext then a.(rows := RowTables.Synced(a.rows, RowSync(a.interfaces, env))) else a
    case CountReset => a.(countCache := 0)
  }

  function AfterSteps(lim: Limits, steps: seq<Step>): App
  {
    if steps == [] then FRESH else AfterStep(AfterSteps(lim, steps[..|steps| - 1]), lim, steps[|steps| - 1])
  }

  /** An uninterrupted refresh is its two steps, the second taken when the count changed. */
  lemma RefreshIsItsSteps(a: App, lim: Limits, list: seq<Info>, env: Env)
    ensures var delivered := AfterStep(a, lim, Delivered(list));
            AfterRefresh(a, Some(list), env) ==
            if |list| != a.countCache then AfterStep(delivered, lim, Resynced(env)) else delivered
  {
  }

  lemma StepKeepsRows(a: App, lim: Limits, step: Step)
    ensures |AfterStep(a, lim, step).rows| == |a.rows|
    ensures forall i | 0 <= i < |a.rows| && a.rows[i].registered :: AfterStep(a, lim, step).rows[i] == a.rows[i]
  {
  }

  lemma {:induction false} RowCount(lim: Limits, steps: seq<Step>)
    ensures |AfterSteps(lim, steps).rows| == RowTables.MAX_VEIP_INSTANCES
  {
    if steps != [] {
      RowCount(lim, steps[..|steps| - 1]);
      StepKeepsRows(AfterSteps(lim, steps[..|steps| - 1]), lim, steps[|steps| - 1]);
    }
  }

  /** Whatever events and refreshes follow, a registered row keeps its instance and name. */
  lemma {:induction false} RowsAreNeverRenamed(lim: Limits, steps: seq<Step>, more: seq<Step>, i: nat)
    requires i < |AfterSteps(lim, steps).rows| && AfterSteps(lim, steps).rows[i].registered
    ensures i < |AfterSteps(lim, steps + more).rows|
    ensures AfterSteps(lim, steps + more).rows[i] == AfterSteps(lim, steps).rows[i]
  {
    if more == [] {
      assert steps + more == steps;
    } else {
      var front := more[..|more| - 1];
      RowsAreNeverRenamed(lim, steps, front, i);
      assert (steps + more)[..|steps + more| - 1] == steps + front;
      StepKeepsRows(AfterSteps(lim, steps + front), lim, more[|more| - 1]);
    }
  }

  /** The last step that reported the name: an event carrying it, or a delivered list,
      which reports its first entry of that name or drops the name. */
  function LatestReport(steps: seq<Step>, name: string, n: nat): Option<Info>
  {
    if steps == [] then None
    else
      var front, last := steps[..|steps| - 1], steps[|steps| - 1];
      match last
      case EventStage(k, info, _) =>
        if k == 0 && Key(info.name, n) == Key(name, n) then Some(info) else LatestReport(front, name, n)
      case Delivered(list) => Lookup(list, name, n)
      case _ => LatestReport(front, name, n)
  }

  /** An event changes what its own name finds, and only that. */
  lemma LookupAfterUpdate(list: seq<Info>, lim: Limits, info: Info, name: string)
    ensures var n := lim.nameLength;
            var found := Lookup(Updated(list, lim, info), name, n);
            if Key(info.name, n) != Key(name, n) then found == Lookup(list, name, n)
            else found == if Lookup(list, name, n).Some? || |list| < lim.maxInterfaces then Some(info) else None
  {
    var n := lim.nameLength;
    PositionSpec(list, info.name, n);
    PositionSpec(list, name, n);
    SameNameIsSameKey(info.name, name, n);
    forall j | 0 <= j < |list|
      ensures SameName(list[j].name, name, n) <==> Key(list[j].name, n) == Key(name, n)
      ensures SameName(list[j].name, info.name, n) <==> Key(list[j].name, n) == Key(info.name, n)
    {
      SameNameIsSameKey(list[j].name, name, n);
      SameNameIsSameKey(list[j].name, info.name, n);
    }
    if Key(info.name, n) == Key(name, n) {
      PositionIs(list, name, n, Position(list, info.name, n));
      PositionIs(Updated(list, lim, info), name, n, Position(list, info.name, n));
    } else {
      var k := Position(list, name, n);
      PositionIs(Updated(list, lim, info), name, n, if k < |list| then k else |Updated(list, lim, info)|);
    }
  }

  /** A listed name is found with its latest report. */
  lemma {:induction false} ListedIsLatest(lim: Limits, steps: seq<Step>, name: string)
    ensures var found := Lookup(AfterSteps(lim, steps).interfaces, name, lim.nameLength);
            found.Some? ==> found == LatestReport(steps, name, lim.nameLength)
  {
    if steps != [] {
      var front, last := steps[..|steps| - 1], steps[|steps| - 1];
      ListedIsLatest(lim, front, name);
      if last.EventStage? && last.k == 0 {
        LookupAfterUpdate(AfterSteps(lim, front).interfaces, lim, last.info, name);
      }
    }
  }

  /** In every run that mixes interface events and list refreshes, stage by stage, a GET
      on a registered row answers exactly while the current list has its recorded name,
      and then with the latest report of that name. */
  lemma GetAnswersWhileListed(lim: Limits, steps: seq<Step>, i: nat, c: nat, wild: u32)
    requires c < |RowPaths.VEIP_COLUMNS|
    requires i < |AfterSteps(lim, steps).rows| && AfterSteps(lim, steps).rows[i].registered
    ensures var a := AfterSteps(lim, steps);
            var name := a.rows[i].name;
            var latest := LatestReport(steps, name, lim.nameLength);
            if HasName(a.interfaces, name, lim.nameLength)
            then latest.Some? && VeipGet(a, lim, i, c, wild) == RowPaths.Answer(c, latest.value)
            else VeipGet(a, lim, i, c, wild) == RowPaths.NoSuchElement
  {
    var a := AfterSteps(lim, steps);
    RowCount(lim, steps);
    LookupIsFirstNamed(a.interfaces, a.rows[i].name, lim.nameLength);
    ListedIsLatest(lim, steps, a.rows[i].name);
    RowPaths.VeipPathRoundTrip(i + 1, c, a.rows, a.interfaces, lim.nameLength, wild);
  }

  // ------------------------------------------------------------ alarms

  /** The alarm reports of a run, in order, catalogued or not. */
  function AlarmReports(run: Run): seq<Raise>
  {
    if run == [] then []
    else
      var e := run[|run| - 1].0;
      AlarmReports(run[..|run| - 1]) + if e.AlarmReport? then [Alarm(e.alarm)] else []
  }

  /** Those of the raises that are alarms. */
  function AlarmRaises(rs: seq<Raise>): seq<Raise>
  {
    if rs == [] then []
    else AlarmRaises(rs[..|rs| - 1]) + if rs[|rs| - 1].Alarm? then [rs[|rs| - 1]] else []
  }

  lemma {:induction false} AlarmRaisesConcat(xs: seq<Raise>, ys: seq<Raise>)
    ensures AlarmRaises(xs + ys) == AlarmRaises(xs) + AlarmRaises(ys)
  {
    if ys == [] {
      assert xs + ys == xs;
    } else {
      var front, last := ys[..|ys| - 1], ys[|ys| - 1];
      AlarmRaisesConcat(xs, front);
      assert (xs + ys)[..|xs + ys| - 1] == xs + front;
      Associative(AlarmRaises(xs), AlarmRaises(front), if last.Alarm? then [last] else []);
    }
  }

  lemma {:induction false} NoAlarmRaises(xs: seq<Raise>)
    requires forall i | 0 <= i < |xs| :: !xs[i].Alarm?
    ensures AlarmRaises(xs) == []
  {
    if xs != [] { NoAlarmRaises(xs[..|xs| - 1]); }
  }

  lemma InterfaceRaisesNoAlarm(k: nat, a: App, lim: Limits, info: Info, env: Env)
    requires k <= STAGES
    ensures forall i | 0 <= i < |StagedRaises(k, a, lim, info, env)| :: !StagedRaises(k, a, lim, info, env)[i].Alarm?
  {
  }

  lemma AlarmsRaised(a: App, lim: Limits, e: Event, env: Env)
    ensures AlarmRaises(Raises(a, lim, e, env)) == if e.AlarmReport? then [Alarm(e.alarm)] else []
  {
    var more := Raises(a, lim, e, env);
    if e.AlarmReport? {
      assert more == [Alarm(e.alarm)];
      assert more[..0] == [];
    } else {
      if e.InterfaceEvent? { InterfaceRaisesNoAlarm(STAGES, a, lim, e.info, env); }
      NoAlarmRaises(more);
    }
  }

  /** Handling raises exactly the reported alarms, once each and in order. */
  lemma {:induction false} FoldedAlarms(lim: Limits, run: Run)
    ensures AlarmRaises(FoldedRaises(lim, run)) == AlarmReports(run)
  {
    if run != [] {
      var front := run[..|run| - 1];
      var (e, env) := run[|run| - 1];
      FoldedAlarms(lim, front);
      AlarmsRaised(Folded(lim, front), lim, e, env);
      AlarmRaisesConcat(FoldedRaises(lim, front), Raises(Folded(lim, front), lim, e, env));
    }
  }

  /** Raises with the backend's answer to each. */
  function Answered(rs: seq<Raise>, answers: seq<bool>): (all: seq<(Raise, bool)>)
    requires |answers| == |rs|
    ensures |all| == |rs|
  {
    seq(|rs|, i requires 0 <= i < |rs| => (rs[i], answers[i]))
  }

  function Firsts(rs: seq<(Raise, bool)>): (raises: seq<Raise>)
    ensures |raises| == |rs|
  {
    seq(|rs|, i requires 0 <= i < |rs| => rs[i].0)
  }

  /** The answered alarms among answered raises. */
  function AnsweredAlarms(rs: seq<(Raise, bool)>): seq<(Raise, bool)>
  {
    if rs == [] then []
    else AnsweredAlarms(rs[..|rs| - 1]) + if rs[|rs| - 1].0.Alarm? then [rs[|rs| - 1]] else []
  }

  lemma SnocFirsts(rs: seq<(Raise, bool)>, r: (Raise, bool))
    ensures Firsts(rs + [r]) == Firsts(rs) + [r.0]
    ensures AlarmsOf(rs + [r]) == AlarmsOf(rs) + if r.1 then OptionToSeq(ObservedAlarm(r.0)) else []
  {
    assert (rs + [r])[..|rs|] == rs;
  }

  /** Only alarms are observed, and leaving the rest out keeps their order and answers. */
  lemma {:induction false} OnlyAlarmsAreObserved(rs: seq<(Raise, bool)>)
    ensures AlarmsOf(AnsweredAlarms(rs)) == AlarmsOf(rs)
    ensures Firsts(AnsweredAlarms(rs)) == AlarmRaises(Firsts(rs))
  {
    if rs != [] {
      var front, last := rs[..|rs| - 1], rs[|rs| - 1];
      OnlyAlarmsAreObserved(front);
      assert Firsts(rs)[..|front|] == Firsts(front);
      if last.0.Alarm? {
        SnocFirsts(AnsweredAlarms(front), last);
      } else {
        assert ObservedAlarm(last.0).None?;
        assert AnsweredAlarms(rs) == AnsweredAlarms(front);
      }
    }
  }

  /** While the telemetry module is initialised, and whatever the backend accepts, the
      marker trace of a log decodes to exactly the accepted catalogued alarms among its
      alarms. */
  lemma TraceOfLog(log: seq<Raise>, answers: seq<bool>, notApplicable: u16)
    requires |answers| == |log|
    ensures var alarms := AnsweredAlarms(Answered(log, answers));
            && Firsts(alarms) == AlarmRaises(log)
            && DecodeTrace(Trace(Answered(log, answers), notApplicable), notApplicable) == AlarmsOf(alarms)
  {
    OnlyAlarmsAreObserved(Answered(log, answers));
    assert Firsts(Answered(log, answers)) == log;
    TraceDeterminesAlarms(Answered(log, answers), notApplicable);
  }

  /** While the telemetry module is initialised, the reported alarms of a run, each with
      the backend's answer to it, are what the marker trace of the run decodes to: exactly
      the accepted catalogued ones, in order. */
  lemma TraceShowsAlarms(lim: Limits, run: Run, answers: seq<bool>, notApplicable: u16)
    requires |answers| == |FoldedRaises(lim, run)|
    ensures var all := Answered(FoldedRaises(lim, run), answers);
            && Firsts(AnsweredAlarms(all)) == AlarmReports(run)
            && DecodeTrace(Trace(all, notApplicable), notApplicable) == AlarmsOf(AnsweredAlarms(all))
  {
    FoldedAlarms(lim, run);
    TraceOfLog(FoldedRaises(lim, run), answers, notApplicable);
  }
}
