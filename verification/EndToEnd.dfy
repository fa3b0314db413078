/** From concurrent pushes to observable state: what the pipeline's refinement says
    in terms of the events alone. */
module EndToEnd {
  import opened CText
  import opened Interfaces
  import opened Telemetry
  import opened Controller
  import opened ControllerRuns
  import opened Pipeline
  import RowPaths
  import RowTables

  /** For every interleaving, between handlers the interface list is the normal form of
      the popped interface events and the ONU state the last two popped statuses. */
  lemma StateAfterAnyInterleaving(c: Config, acts: seq<Act>, s: Sys)
    requires Exec(c, INITIAL, acts) == Some(s) && !s.pc.Handling?
    ensures var run := Events(s.popped);
            var infos := Infos(InterfaceRun(run));
            var names := Tracked(c.limits, infos);
            && |s.app.interfaces| == |names| && Distinct(names)
            && (forall i | 0 <= i < |names| :: s.app.interfaces[i] == Latest(infos, names[i], c.limits.nameLength))
    ensures var history := [LossOfSignal, LossOfSignal] + Statuses(Events(s.popped));
            && s.app.onu.current == history[|history| - 1]
            && s.app.onu.previous == history[|history| - 2]
  {
    PipelineRefinesFold(c, acts);
    var run := Events(s.popped);
    FoldedInterfaces(c.limits, run);
    NormalForm(c.limits, Infos(InterfaceRun(run)));
    OnuHoldsLastTwo(c.limits, run);
  }

  /** Queue-full markers are no alarms. */
  lemma {:induction false} FullMarkersAreNoAlarms(log: seq<Raise>)
    ensures AlarmRaises(HandlerRaises(log)) == AlarmRaises(log)
  {
    if log != [] {
      var front, last := log[..|log| - 1], log[|log| - 1];
      FullMarkersAreNoAlarms(front);
      if last != Simple(ErrorEventQueueFull) {
        assert (HandlerRaises(front) + [last])[..|HandlerRaises(front)|] == HandlerRaises(front);
      } else {
        assert HandlerRaises(log) == HandlerRaises(front) && AlarmRaises(log) == AlarmRaises(front);
      }
    }
  }

  /** For every interleaving and whatever the backend accepts, the alarm reports among the
      popped events, each with the backend's answer to it, are what the marker trace of all
      threads decodes to: exactly the accepted catalogued ones, in order (while the
      telemetry module is initialised). */
  lemma AlarmsAfterAnyInterleaving(c: Config, acts: seq<Act>, s: Sys, answers: seq<bool>, notApplicable: u16)
    requires Exec(c, INITIAL, acts) == Some(s) && !s.pc.Handling? && |answers| == |s.log|
    ensures var all := Answered(s.log, answers);
            && Firsts(AnsweredAlarms(all)) == AlarmReports(Events(s.popped))
            && DecodeTrace(Trace(all, notApplicable), notApplicable) == AlarmsOf(AnsweredAlarms(all))
  {
    PipelineRefinesFold(c, acts);
    FullMarkersAreNoAlarms(s.log);
    FoldedAlarms(c.limits, Events(s.popped));
    TraceOfLog(s.log, answers, notApplicable);
  }

  /** For every interleaving and any bus failures, the WAN manager holds the aggregate
      at the last interface event whose publish succeeded. */
  lemma AggregateAfterAnyInterleaving(c: Config, acts: seq<Act>, s: Sys, k: nat)
    requires Exec(c, INITIAL, acts) == Some(s) && !s.pc.Handling?
    requires LastPublished(c.limits, InterfaceRun(Events(s.popped)), k)
    ensures var events := Infos(InterfaceRun(Events(s.popped)))[..k + 1];
            && s.app.wan.phy.Keys == {s.app.wan.index}
            && (s.app.wan.phy[s.app.wan.index] <==>
                  exists i | 0 <= i < |Tracked(c.limits, events)| ::
                    Latest(events, Tracked(c.limits, events)[i], c.limits.nameLength).status == LinkUp)
  {
    PipelineRefinesFold(c, acts);
    PublishedAggregate(c.limits, Events(s.popped), k);
  }

  /** In every reachable state, also between the stages of a handler, the VEIP rows are
      coherent with the interface list, whose names are distinct. */
  lemma RowsCoherentThroughout(c: Config, acts: seq<Act>, s: Sys)
    requires Exec(c, INITIAL, acts) == Some(s)
    requires NamesFit(c.limits, Infos(InterfaceRun(Events(s.popped))))
    ensures RowsCoherent(s.app) && |s.app.rows| == RowTables.MAX_VEIP_INSTANCES
    ensures NamesFit(c.limits, s.app.interfaces) && DistinctNames(s.app.interfaces, c.limits.nameLength)
  {
    PipelineRefinesFold(c, acts);
    var run := Events(s.popped);
    if s.pc.Handling? {
      CoherentDuringHandling(c.limits, run, s.pc.stage);
    } else {
      RowsStayCoherent(c.limits, run);
      FoldedInterfaces(c.limits, run);
      EventsKeepNamesDistinct(c.limits, Infos(InterfaceRun(run)));
    }
  }

  lemma InfosOfRun(run: Run)
    requires run != []
    ensures var front := Infos(InterfaceRun(run[..|run| - 1]));
            var e := run[|run| - 1].0;
            Infos(InterfaceRun(run)) == if e.InterfaceEvent? then front + [e.info] else front
  {
  }

  /** The last event of the run is being handled and k of its stages are done. */
  lemma CoherentDuringHandling(lim: Limits, run: Run, k: nat)
    requires run != [] && k < StageCount(run[|run| - 1].0) && NamesFit(lim, Infos(InterfaceRun(run)))
    ensures var a := Partial(k, Folded(lim, run[..|run| - 1]), lim, run[|run| - 1].0, run[|run| - 1].1);
            && RowsCoherent(a) && |a.rows| == RowTables.MAX_VEIP_INSTANCES
            && NamesFit(lim, a.interfaces) && DistinctNames(a.interfaces, lim.nameLength)
  {
    var front := run[..|run| - 1];
    var (e, env) := run[|run| - 1];
    var before := Infos(InterfaceRun(front));
    InfosOfRun(run);
    assert before <= Infos(InterfaceRun(run));
    RowsStayCoherent(lim, front);
    FoldedInterfaces(lim, front);
    EventsKeepNamesDistinct(lim, before);
    if e.InterfaceEvent? {
      var all := before + [e.info];
      assert all[..|before|] == before && all[|before|] == e.info;
      EventsKeepNamesDistinct(lim, all);
      CoherentStages(k, Folded(lim, front), lim, e.info, env);
    }
  }

  /** So a GET at any moment answers with the current entry at the row's index, except
      for names that do not fit the row. */
  lemma VeipGetAtAnyMoment(c: Config, acts: seq<Act>, s: Sys, i: nat, column: nat, wild: u32)
    requires Exec(c, INITIAL, acts) == Some(s)
    requires NamesFit(c.limits, Infos(InterfaceRun(Events(s.popped)))) && column < |RowPaths.VEIP_COLUMNS|
    requires i < |s.app.rows| && s.app.rows[i].registered
    ensures i < |s.app.interfaces|
    ensures VeipGet(s.app, c.limits, i, column, wild) == RowPaths.Answer(column, s.app.interfaces[i])
            <==> |s.app.interfaces[i].name| < RowTables.VEIP_NAME_SIZE
  {
    RowsCoherentThroughout(c, acts, s);
    CoherentRowReads(s.app, c.limits.nameLength, i);
    RowPaths.VeipPathRoundTrip(i + 1, column, s.app.rows, s.app.interfaces, c.limits.nameLength, wild);
  }
}
