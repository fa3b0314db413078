/** The counts of the VEIP change tracking are those of the controller's state: every run
    of event stages and list refreshes on interface lists and rows is a run of the
    counting machine, so its completeness carries over. */
module VeipTracking {
  import opened CText
  import opened Interfaces
  import opened Controller
  import opened ControllerRuns
  import opened ChangeTracking
  import RowTables

  /** What is under way: refreshes between unlock and synchronisation, and the next stage
      of the interface event in progress (stage 0 when there is none). */
  datatype Progress = Progress(pending: nat, stage: nat)

  /** The bus handle is set and the bus takes every row of the list. */
  predicate Takes(a: App, env: Env)
  {
    && env.rowHandle && env.rowContext && Min(|a.interfaces|, |a.rows|) <= |env.rowAccepts|
    && forall i | 0 <= i < Min(|a.interfaces|, |a.rows|) :: env.rowAccepts[i]
  }

  /** Stages come in order, and a synchronisation follows a refresh that asked for it. */
  predicate Possible(a: App, p: Progress, step: Step)
  {
    match step
    case EventStage(k, _, env) => k == p.stage < STAGES && (k == STAGES - 1 ==> Takes(a, env))
    case Delivered(_) => true
    case Resynced(env) => p.pending > 0 && Takes(a, env)
    case CountReset => true
  }

  function Advance(a: App, p: Progress, step: Step): Progress
    requires Possible(a, p, step)
  {
    match step
    case EventStage(k, _, _) => p.(stage := if k + 1 == STAGES then 0 else k + 1)
    case Delivered(list) => if |list| != a.countCache then p.(pending := p.pending + 1) else p
    case Resynced(_) => p.(pending := p.pending - 1)
    case CountReset => p
  }

  function ProgressOf(lim: Limits, steps: seq<Step>): Option<Progress>
  {
    if steps == [] then Some(Progress(0, 0))
    else
      var front, last := steps[..|steps| - 1], steps[|steps| - 1];
      match ProgressOf(lim, front)
      case None => None
      case Some(p) =>
        var a := AfterSteps(lim, front);
        if Possible(a, p, last) then Some(Advance(a, p, last)) else None
  }

  /** The state of the counting machine. */
  function Counted(a: App, p: Progress): Shared
  {
    Shared(|a.interfaces|, a.countCache, p.pending, if p.stage == 0 then NoEvent else Appended, Indices(a.rows))
  }

  lemma TakenRows(a: App, env: Env)
    requires Takes(a, env)
    ensures Indices(RowTables.Synced(a.rows, RowSync(a.interfaces, env))) ==
            Registered(Indices(a.rows), |a.interfaces|, |a.rows|)
  {
    var after := RowTables.Synced(a.rows, RowSync(a.interfaces, env));
    assert forall i: nat | i < |a.rows| :: after[i].registered <==> a.rows[i].registered || i < |a.interfaces|;
  }

  lemma SharedExtend(max: nat, acts: seq<SharedAct>, act: SharedAct)
    requires SharedExec(max, acts).Some? && SharedEnabled(SharedExec(max, acts).value, act)
    ensures SharedExec(max, acts + [act]) == Some(SharedNext(max, SharedExec(max, acts).value, act))
  {
    assert (acts + [act])[..|acts|] == acts;
  }

  /** The last stage of an event compares, synchronises and sets the cache. */
  lemma LastStage(a: App, p: Progress, lim: Limits, info: Info, env: Env, acts: seq<SharedAct>)
    returns (run: seq<SharedAct>)
    requires p.stage == STAGES - 1 && Takes(a, env) && SharedExec(|a.rows|, acts) == Some(Counted(a, p))
    ensures SharedExec(|a.rows|, run) == Some(Counted(Stage(STAGES - 1, a, lim, info, env), p.(stage := 0)))
  {
    SharedExtend(|a.rows|, acts, EventCompare);
    run := acts + [EventCompare];
    if RowsDue(a) {
      TakenRows(a, env);
      SharedExtend(|a.rows|, run, EventSync);
      SharedExtend(|a.rows|, run + [EventSync], EventWrite);
      run := run + [EventSync] + [EventWrite];
    }
  }

  /** Every step is one of the counting machine, or several, or none. */
  lemma StepIsCounted(a: App, p: Progress, lim: Limits, step: Step, acts: seq<SharedAct>)
    returns (run: seq<SharedAct>)
    requires Possible(a, p, step) && SharedExec(|a.rows|, acts) == Some(Counted(a, p))
    ensures SharedExec(|a.rows|, run) == Some(Counted(AfterStep(a, lim, step), Advance(a, p, step)))
  {
    match step
    case EventStage(k, info, env) =>
      if k == 0 {
        var act := EventUpdate(|Updated(a.interfaces, lim, info)| > |a.interfaces|);
        SharedExtend(|a.rows|, acts, act);
        run := acts + [act];
      } else if k + 1 < STAGES {
        run := acts;
      } else {
        run := LastStage(a, p, lim, info, env, acts);
      }
    case Delivered(list) =>
      SharedExtend(|a.rows|, acts, HalRefresh(|list|));
      run := acts + [HalRefresh(|list|)];
    case Resynced(env) =>
      TakenRows(a, env);
      SharedExtend(|a.rows|, acts, RefreshSync);
      run := acts + [RefreshSync];
    case CountReset =>
      SharedExtend(|a.rows|, acts, Reset);
      run := acts + [Reset];
  }

  /** So every run is tracked by a run of the counting machine. */
  lemma {:induction false} RunIsCounted(lim: Limits, steps: seq<Step>) returns (run: seq<SharedAct>)
    requires ProgressOf(lim, steps).Some?
    ensures SharedExec(RowTables.MAX_VEIP_INSTANCES, run) ==
            Some(Counted(AfterSteps(lim, steps), ProgressOf(lim, steps).value))
  {
    if steps == [] {
      run := [];
      assert Indices(FRESH.rows) == {};
    } else {
      var front := steps[..|steps| - 1];
      var before := RunIsCounted(lim, front);
      RowCount(lim, front);
      run := StepIsCounted(AfterSteps(lim, front), ProgressOf(lim, front).value, lim, steps[|steps| - 1], before);
    }
  }

  /** In every run that interleaves the stages of interface events, list refreshes and
      cache invalidations, with the bus taking every row, each listed interface up to the
      table size has a registered row whenever no event and no synchronisation is under
      way. */
  lemma ListedInterfacesHaveRows(lim: Limits, steps: seq<Step>, i: nat)
    requires ProgressOf(lim, steps) == Some(Progress(0, 0))
    requires i < |AfterSteps(lim, steps).interfaces| && i < RowTables.MAX_VEIP_INSTANCES
    ensures i < |AfterSteps(lim, steps).rows| && AfterSteps(lim, steps).rows[i].registered
  {
    var run := RunIsCounted(lim, steps);
    VeipTableComplete(RowTables.MAX_VEIP_INSTANCES, run);
    assert i in Indices(AfterSteps(lim, steps).rows);
  }
}
