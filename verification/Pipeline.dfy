/** The event pipeline as a concurrent machine: any number of HAL callback threads
    push into the queue while the controller loop pops, handles in stages and waits.
    Every interleaving of these steps is a sequence of actions. */
module Pipeline {
  import opened CText
  import opened Interfaces
  import opened Telemetry
  import opened Controller
  import EventQueue

  datatype Config = Config(capacity: nat, batch: nat, limits: Limits)

  /** The queue, batch and wait sizes the daemon uses. */
  const QUEUE_CAPACITY: nat := 100
  const BATCH_LIMIT: nat := 50

  datatype Item = Item(producer: nat, event: Event)

  /** Where the controller loop is: at the top of a pass, popping, inside a handler,
      in its timed wait, or gone. */
  datatype Pc =
    | Top
    | Draining(done: nat)
    | Handling(done: nat, item: Item, env: Env, stage: nat)
    | Waiting
    | Exited

  datatype Sys = Sys(
    queue: seq<Item>,
    offers: seq<(Item, bool)>,    // every push so far and whether it was accepted
    owed: nat,                    // failed pushes whose queue-full marker is still to be raised
    popped: seq<(Item, Env)>,
    app: App, log: seq<Raise>,
    pc: Pc, shutdown: bool)

  const INITIAL: Sys := Sys([], [], 0, [], FRESH, [], Top, false)

  datatype Act =
    | Offer(item: Item)      // a callback pushes
    | RaiseFull              // a callback whose push failed raises the marker
    | Begin                  // the loop tests the shutdown flag
    | Pop(env: Env)          // the loop pops an event (or finds the queue empty)
    | HandleStage            // the loop runs the next stage of a handler
    | Wake                   // the wait ends, by signal or timeout
    | RequestShutdown

  function StageCount(e: Event): nat { if e.InterfaceEvent? then STAGES else 1 }

  /** The state and telemetry after the first k stages of handling e. */
  function Partial(k: nat, a: App, lim: Limits, e: Event, env: Env): App
    requires k <= StageCount(e)
  {
    if e.InterfaceEvent? then Staged(k, a, lim, e.info, env)
    else if k == 0 then a else Handled(a, lim, e, env)
  }

  function PartialRaises(k: nat, a: App, lim: Limits, e: Event, env: Env): seq<Raise>
    requires k <= StageCount(e)
  {
    if e.InterfaceEvent? then StagedRaises(k, a, lim, e.info, env)
    else if k == 0 then [] else Raises(a, lim, e, env)
  }

  /** One stage, applied to whatever the state is when it runs. */
  function RunStage(k: nat, a: App, lim: Limits, e: Event, env: Env): (App, seq<Raise>)
    requires k < StageCount(e)
  {
    if e.InterfaceEvent? then (Stage(k, a, lim, e.info, env), StageRaises(k, a, lim, e.info, env))
    else (Handled(a, lim, e, env), Raises(a, lim, e, env))
  }

  predicate Enabled(c: Config, s: Sys, act: Act)
  {
    match act
    case Offer(_) => true
    case RaiseFull => s.owed > 0
    case Begin => s.pc.Top?
    case Pop(_) => s.pc.Draining?
    case HandleStage => s.pc.Handling? && s.pc.stage < StageCount(s.pc.item.event)
    case Wake => s.pc.Waiting?
    case RequestShutdown => true
  }

  function Next(c: Config, s: Sys, act: Act): Sys
    requires Enabled(c, s, act)
  {
    match act
    case Offer(item) =>
      var ok := |s.queue| < c.capacity;
      s.(queue := EventQueue.Pushed(s.queue, c.capacity, item), offers := s.offers + [(item, ok)],
         owed := if ok then s.owed else s.owed + 1)
    case RaiseFull => s.(owed := s.owed - 1, log := s.log + [Simple(ErrorEventQueueFull)])
    case Begin => s.(pc := if s.shutdown then Exited else Draining(0))
    case Pop(env) =>
      if s.queue == [] then s.(pc := Waiting)
      else s.(queue := EventQueue.Popped(s.queue), popped := s.popped + [(s.queue[0], env)],
              pc := Handling(s.pc.done, s.queue[0], env, 0))
    case HandleStage =>
      var Handling(done, item, env, k) := s.pc;
      var (app, raises) := RunStage(k, s.app, c.limits, item.event, env);
      var t := s.(app := app, log := s.log + raises);
      if k + 1 < StageCount(item.event) then t.(pc := Handling(done, item, env, k + 1))
      else if done + 1 >= c.batch then t.(pc := Waiting)
      else t.(pc := Draining(done + 1))
    case Wake => s.(pc := Top)
    case RequestShutdown => s.(shutdown := true)
  }

  /** The state after a sequence of actions, if each was possible in its turn. */
  function Exec(c: Config, s: Sys, acts: seq<Act>): Option<Sys>
  {
    if acts == [] then Some(s)
    else
      match Exec(c, s, acts[..|acts| - 1])
      case None => None
      case Some(t) => if Enabled(c, t, acts[|acts| - 1]) then Some(Next(c, t, acts[|acts| - 1])) else None
  }

  // ------------------------------------------------------------ observations

  function AcceptedOf(offers: seq<(Item, bool)>): seq<Item>
  {
    if offers == [] then []
    else AcceptedOf(offers[..|offers| - 1]) + if offers[|offers| - 1].1 then [offers[|offers| - 1].0] else []
  }

  function Lost(offers: seq<(Item, bool)>): nat
  {
    if offers == [] then 0 else Lost(offers[..|offers| - 1]) + if offers[|offers| - 1].1 then 0 else 1
  }

  function Items(popped: seq<(Item, Env)>): (items: seq<Item>)
    ensures |items| == |popped|
  {
    seq(|popped|, i requires 0 <= i < |popped| => popped[i].0)
  }

  function Events(popped: seq<(Item, Env)>): (run: seq<(Event, Env)>)
    ensures |run| == |popped|
  {
    seq(|popped|, i requires 0 <= i < |popped| => (popped[i].0.event, popped[i].1))
  }

  /** The telemetry that handlers raised: everything but queue-full markers. */
  function HandlerRaises(log: seq<Raise>): seq<Raise>
  {
    if log == [] then []
    else HandlerRaises(log[..|log| - 1])
         + if log[|log| - 1] == Simple(ErrorEventQueueFull) then [] else [log[|log| - 1]]
  }

  function FullMarkers(log: seq<Raise>): nat
  {
    if log == [] then 0
    else FullMarkers(log[..|log| - 1]) + if log[|log| - 1] == Simple(ErrorEventQueueFull) then 1 else 0
  }

  lemma {:induction false} LogConcat(xs: seq<Raise>, ys: seq<Raise>)
    ensures HandlerRaises(xs + ys) == HandlerRaises(xs) + HandlerRaises(ys)
    ensures FullMarkers(xs + ys) == FullMarkers(xs) + FullMarkers(ys)
  {
    if ys == [] {
      assert xs + ys == xs;
    } else {
      var front, last := ys[..|ys| - 1], ys[|ys| - 1];
      LogConcat(xs, front);
      assert (xs + ys)[..|xs + ys| - 1] == xs + front;
      if last != Simple(ErrorEventQueueFull) { Associative(HandlerRaises(xs), HandlerRaises(front), [last]); }
    }
  }

  lemma {:induction false} PureHandlerLog(xs: seq<Raise>)
    requires Simple(ErrorEventQueueFull) !in xs
    ensures HandlerRaises(xs) == xs && FullMarkers(xs) == 0
  {
    if xs != [] {
      var front, last := xs[..|xs| - 1], xs[|xs| - 1];
      assert xs == front + [last];
      PureHandlerLog(front);
      assert HandlerRaises(xs) == front + [last];
    }
  }

  /** No handler raises the queue-full marker. */
  lemma StagesRaiseNoFull(k: nat, a: App, lim: Limits, e: Event, env: Env)
    requires k < StageCount(e)
    ensures HandlerRaises(RunStage(k, a, lim, e, env).1) == RunStage(k, a, lim, e, env).1
    ensures FullMarkers(RunStage(k, a, lim, e, env).1) == 0
  {
    PureHandlerLog(RunStage(k, a, lim, e, env).1);
  }

  // ------------------------------------------------------------ the invariant

  /** App and handler telemetry after the first k stages of handling e, on top of the
      events in run. */
  ghost predicate Halfway(lim: Limits, run: seq<(Event, Env)>, e: Event, env: Env, k: nat, app: App, raises: seq<Raise>)
  {
    && k <= StageCount(e)
    && app == Partial(k, Folded(lim, run), lim, e, env)
    && raises == FoldedRaises(lim, run) + PartialRaises(k, Folded(lim, run), lim, e, env)
  }

  /** What state and handler telemetry must be, given the popped events and the
      progress inside the current handler. */
  ghost predicate Refines(c: Config, s: Sys)
  {
    var run := Events(s.popped);
    if s.pc.Handling? then
      && run != [] && s.popped[|s.popped| - 1] == (s.pc.item, s.pc.env)
      && s.pc.stage < StageCount(s.pc.item.event)
      && Halfway(c.limits, run[..|run| - 1], s.pc.item.event, s.pc.env, s.pc.stage, s.app, HandlerRaises(s.log))
    else
      s.app == Folded(c.limits, run) && HandlerRaises(s.log) == FoldedRaises(c.limits, run)
  }

  ghost predicate Accounted(c: Config, s: Sys)
  {
    && |s.queue| <= c.capacity
    && AcceptedOf(s.offers) == Items(s.popped) + s.queue
    && Lost(s.offers) == FullMarkers(s.log) + s.owed
  }

  lemma OfferSnoc(offers: seq<(Item, bool)>, item: Item, ok: bool)
    ensures AcceptedOf(offers + [(item, ok)]) == AcceptedOf(offers) + if ok then [item] else []
    ensures Lost(offers + [(item, ok)]) == Lost(offers) + if ok then 0 else 1
  {
    assert (offers + [(item, ok)])[..|offers|] == offers;
  }

  lemma AccountedStep(c: Config, s: Sys, act: Act)
    requires Accounted(c, s) && Enabled(c, s, act)
    ensures Accounted(c, Next(c, s, act))
  {
    match act
    case Offer(item) => OfferSnoc(s.offers, item, |s.queue| < c.capacity);
    case RaiseFull =>
      LogConcat(s.log, [Simple(ErrorEventQueueFull)]);
      assert [Simple(ErrorEventQueueFull)][..0] == [];
    case Pop(env) =>
      if s.queue != [] {
        assert Items(s.popped + [(s.queue[0], env)]) == Items(s.popped) + [s.queue[0]];
        assert s.queue == [s.queue[0]] + s.queue[1..];
      }
    case HandleStage => HandleStageLog(c, s);
    case _ =>
  }

  /** A handler stage adds its own telemetry and no queue-full marker. */
  lemma HandleStageLog(c: Config, s: Sys)
    requires Enabled(c, s, HandleStage)
    ensures var t := Next(c, s, HandleStage);
            && FullMarkers(t.log) == FullMarkers(s.log)
            && t.app == RunStage(s.pc.stage, s.app, c.limits, s.pc.item.event, s.pc.env).0
            && HandlerRaises(t.log) ==
                 HandlerRaises(s.log) + RunStage(s.pc.stage, s.app, c.limits, s.pc.item.event, s.pc.env).1
            && t.queue == s.queue && t.offers == s.offers && t.owed == s.owed && t.popped == s.popped
  {
    LogConcat(s.log, RunStage(s.pc.stage, s.app, c.limits, s.pc.item.event, s.pc.env).1);
    StagesRaiseNoFull(s.pc.stage, s.app, c.limits, s.pc.item.event, s.pc.env);
  }

  /** Running stage k after the first k stages gives the first k + 1 stages. */
  lemma StageExtends(k: nat, a: App, lim: Limits, e: Event, env: Env)
    requires k < StageCount(e)
    ensures RunStage(k, Partial(k, a, lim, e, env), lim, e, env).0 == Partial(k + 1, a, lim, e, env)
    ensures PartialRaises(k, a, lim, e, env) + RunStage(k, Partial(k, a, lim, e, env), lim, e, env).1
         == PartialRaises(k + 1, a, lim, e, env)
  {
  }

  lemma HalfwayStep(lim: Limits, run: seq<(Event, Env)>, e: Event, env: Env, k: nat, app: App, raises: seq<Raise>)
    requires Halfway(lim, run, e, env, k, app, raises) && k < StageCount(e)
    ensures Halfway(lim, run, e, env, k + 1,
                    RunStage(k, app, lim, e, env).0, raises + RunStage(k, app, lim, e, env).1)
  {
    StageExtends(k, Folded(lim, run), lim, e, env);
    Associative(FoldedRaises(lim, run), PartialRaises(k, Folded(lim, run), lim, e, env),
                RunStage(k, app, lim, e, env).1);
  }

  /** All stages together are the handler. */
  lemma HalfwayEnd(lim: Limits, run: seq<(Event, Env)>, e: Event, env: Env, app: App, raises: seq<Raise>)
    requires run != [] && run[|run| - 1] == (e, env)
    requires Halfway(lim, run[..|run| - 1], e, env, StageCount(e), app, raises)
    ensures app == Folded(lim, run) && raises == FoldedRaises(lim, run)
  {
    var base := Folded(lim, run[..|run| - 1]);
    assert Partial(StageCount(e), base, lim, e, env) == Handled(base, lim, e, env);
    assert PartialRaises(StageCount(e), base, lim, e, env) == Raises(base, lim, e, env);
  }

  lemma RefinesHandleStage(c: Config, s: Sys)
    requires Refines(c, s) && Enabled(c, s, HandleStage)
    ensures Refines(c, Next(c, s, HandleStage))
  {
    var run := Events(s.popped);
    var e, env, k := s.pc.item.event, s.pc.env, s.pc.stage;
    HalfwayStep(c.limits, run[..|run| - 1], e, env, k, s.app, HandlerRaises(s.log));
    HandleStageLog(c, s);
    var t := Next(c, s, HandleStage);
    if k + 1 == StageCount(e) { HalfwayEnd(c.limits, run, e, env, t.app, HandlerRaises(t.log)); }
  }

  lemma RefinesPop(c: Config, s: Sys, env: Env)
    requires Refines(c, s) && Enabled(c, s, Pop(env))
    ensures Refines(c, Next(c, s, Pop(env)))
  {
    if s.queue != [] {
      var t := Next(c, s, Pop(env));
      var next := Events(t.popped);
      assert next[..|next| - 1] == Events(s.popped);
      NothingDoneYet(Folded(c.limits, Events(s.popped)), c.limits, s.queue[0].event, env);
    }
  }

  lemma NothingDoneYet(a: App, lim: Limits, e: Event, env: Env)
    ensures Partial(0, a, lim, e, env) == a && PartialRaises(0, a, lim, e, env) == []
  {
  }

  lemma RefinesMarker(c: Config, s: Sys)
    requires Refines(c, s) && Enabled(c, s, RaiseFull)
    ensures Refines(c, Next(c, s, RaiseFull))
  {
    LogConcat(s.log, [Simple(ErrorEventQueueFull)]);
    assert [Simple(ErrorEventQueueFull)][..0] == [];
  }

  lemma RefinesStep(c: Config, s: Sys, act: Act)
    requires Refines(c, s) && Enabled(c, s, act)
    ensures Refines(c, Next(c, s, act))
  {
    match act
    case RaiseFull => RefinesMarker(c, s);
    case HandleStage => RefinesHandleStage(c, s);
    case Pop(env) => RefinesPop(c, s, env);
    case _ =>
      var t := Next(c, s, act);
      assert t.popped == s.popped && t.app == s.app && t.log == s.log;
  }

  /** For every interleaving of callbacks with the loop: accepted events are exactly
      the popped ones followed by the queued ones, in order; events are lost only to
      a full queue, each loss raising one marker; and between handlers the state and
      the handlers' telemetry are the fold of the handlers over the popped events. */
  lemma {:induction false} PipelineRefinesFold(c: Config, acts: seq<Act>)
    requires Exec(c, INITIAL, acts).Some?
    ensures var s := Exec(c, INITIAL, acts).value;
            && |s.queue| <= c.capacity
            && AcceptedOf(s.offers) == Items(s.popped) + s.queue
            && Lost(s.offers) == FullMarkers(s.log) + s.owed
            && (!s.pc.Handling? ==>
                  && s.app == Folded(c.limits, Events(s.popped))
                  && HandlerRaises(s.log) == FoldedRaises(c.limits, Events(s.popped)))
            && Refines(c, s)
  {
    if acts != [] {
      var n := |acts| - 1;
      PipelineRefinesFold(c, acts[..n]);
      var s := Exec(c, INITIAL, acts[..n]).value;
      AccountedStep(c, s, acts[n]);
      RefinesStep(c, s, acts[n]);
    }
  }

  /** Action k of the run is push number j, of the given item; it was accepted unless, at
      that moment, the accepted events not yet popped were as many as the queue holds. */
  ghost predicate MadeAt(c: Config, acts: seq<Act>, k: nat, j: nat, item: Item, accepted: bool)
  {
    && k < |acts| && acts[k] == Offer(item) && Exec(c, INITIAL, acts[..k]).Some?
    && var s := Exec(c, INITIAL, acts[..k]).value;
       |s.offers| == j && (accepted <==> |AcceptedOf(s.offers)| != |s.popped| + c.capacity)
  }

  lemma MadeAtPrefix(c: Config, acts: seq<Act>, n: nat, k: nat, j: nat, item: Item, accepted: bool)
    requires n <= |acts| && MadeAt(c, acts[..n], k, j, item, accepted)
    ensures MadeAt(c, acts, k, j, item, accepted)
  {
    assert acts[..n][..k] == acts[..k];
  }

  /** The last action was a push. */
  lemma PushMadeNow(c: Config, acts: seq<Act>, item: Item)
    requires acts != [] && acts[|acts| - 1] == Offer(item) && Exec(c, INITIAL, acts).Some?
    ensures var offers := Exec(c, INITIAL, acts).value.offers;
            && offers != [] && offers[|offers| - 1].0 == item
            && MadeAt(c, acts, |acts| - 1, |offers| - 1, item, offers[|offers| - 1].1)
  {
    PipelineRefinesFold(c, acts[..|acts| - 1]);
  }

  lemma OnlyPushesOffer(c: Config, s: Sys, act: Act)
    requires Enabled(c, s, act) && !act.Offer?
    ensures Next(c, s, act).offers == s.offers
  {
  }

  /** Over any run, every push was refused exactly when the queue was full at the moment
      it was made. */
  lemma {:induction false} RefusedIffFull(c: Config, acts: seq<Act>, j: nat)
    requires Exec(c, INITIAL, acts).Some? && j < |Exec(c, INITIAL, acts).value.offers|
    ensures var (item, accepted) := Exec(c, INITIAL, acts).value.offers[j];
            exists k: nat :: MadeAt(c, acts, k, j, item, accepted)
  {
    var n := |acts| - 1;
    var t := Exec(c, INITIAL, acts[..n]).value;
    var (item, accepted) := Exec(c, INITIAL, acts).value.offers[j];
    if !acts[n].Offer? { OnlyPushesOffer(c, t, acts[n]); }
    if j < |t.offers| {
      RefusedIffFull(c, acts[..n], j);
      var k: nat :| MadeAt(c, acts[..n], k, j, item, accepted);
      MadeAtPrefix(c, acts, n, k, j, item, accepted);
    } else {
      PushMadeNow(c, acts, item);
    }
  }

  // ------------------------------------------------------------ per-producer order

  function From(items: seq<Item>, p: nat): seq<Item>
  {
    if items == [] then []
    else From(items[..|items| - 1], p) + if items[|items| - 1].producer == p then [items[|items| - 1]] else []
  }

  lemma {:induction false} FromConcat(xs: seq<Item>, ys: seq<Item>, p: nat)
    ensures From(xs + ys, p) == From(xs, p) + From(ys, p)
  {
    if ys == [] {
      assert xs + ys == xs;
    } else {
      FromConcat(xs, ys[..|ys| - 1], p);
      assert (xs + ys)[..|xs + ys| - 1] == xs + ys[..|ys| - 1];
    }
  }

  /** Each producer's accepted events are popped in the order it pushed them. */
  lemma ProducerOrder(c: Config, acts: seq<Act>, p: nat)
    requires Exec(c, INITIAL, acts).Some?
    ensures var s := Exec(c, INITIAL, acts).value;
            From(Items(s.popped), p) <= From(AcceptedOf(s.offers), p)
  {
    PipelineRefinesFold(c, acts);
    var s := Exec(c, INITIAL, acts).value;
    FromConcat(Items(s.popped), s.queue, p);
  }

  // ------------------------------------------------------------ latency

  /** The action ends a pass: the loop goes over to waiting. */
  predicate EndsPass(c: Config, s: Sys, act: Act)
    requires Enabled(c, s, act)
  {
    !s.pc.Waiting? && Next(c, s, act).pc.Waiting?
  }

  /** The passes finished during a run. */
  function Passes(c: Config, s: Sys, acts: seq<Act>): nat
    requires Exec(c, s, acts).Some?
  {
    if acts == [] then 0
    else
      var front, last := acts[..|acts| - 1], acts[|acts| - 1];
      Passes(c, s, front) + if EndsPass(c, Exec(c, s, front).value, last) then 1 else 0
  }

  /** Events taken so far in the current pass. */
  function Taken(pc: Pc): nat
  {
    match pc
    case Draining(d) => d
    case Handling(d, _, _, _) => d + 1
    case _ => 0
  }

  /** Since state s, every finished pass popped a full batch, unless everything
      accepted by then has been popped. */
  ghost predicate Keeping(c: Config, s: Sys, t: Sys, passes: nat)
  {
    && Items(s.popped) + s.queue <= Items(t.popped) + t.queue
    && (t.pc.Draining? || t.pc.Handling? ==> t.pc.done < c.batch)
    && (|t.popped| >= |s.popped| + passes * c.batch + Taken(t.pc)
        || |t.popped| >= |s.popped| + |s.queue|)
  }

  lemma KeepingStep(c: Config, s: Sys, t: Sys, passes: nat, act: Act)
    requires c.batch > 0 && Keeping(c, s, t, passes) && Enabled(c, t, act)
    ensures Keeping(c, s, Next(c, t, act), passes + if EndsPass(c, t, act) then 1 else 0)
  {
    var u := Next(c, t, act);
    if act.Pop? && t.queue != [] {
      assert Items(u.popped) == Items(t.popped) + [t.queue[0]];
      assert Items(u.popped) + u.queue == Items(t.popped) + t.queue;
    }
    if act.HandleStage? {
      assert (passes + 1) * c.batch == passes * c.batch + c.batch;
    }
  }

  lemma {:induction false} KeepingRun(c: Config, s: Sys, acts: seq<Act>)
    requires c.batch > 0 && s.pc.Top? && Exec(c, s, acts).Some?
    ensures Keeping(c, s, Exec(c, s, acts).value, Passes(c, s, acts))
  {
    if acts != [] {
      var n := |acts| - 1;
      KeepingRun(c, s, acts[..n]);
      KeepingStep(c, s, Exec(c, s, acts[..n]).value, Passes(c, s, acts[..n]), acts[n]);
    }
  }

  /** An event with p events ahead of it at the top of a pass is popped within
      p / batch + 1 passes, whatever is pushed meanwhile. */
  lemma PoppedWithin(c: Config, s: Sys, acts: seq<Act>, t: Sys, p: nat)
    requires c.batch > 0 && s.pc.Top? && p < |s.queue|
    requires Exec(c, s, acts) == Some(t) && Passes(c, s, acts) >= p / c.batch + 1
    ensures |t.popped| > |s.popped| + p && t.popped[|s.popped| + p].0 == s.queue[p]
  {
    KeepingRun(c, s, acts);
    Multiples(Passes(c, s, acts), p, c.batch);
    var k := |s.popped| + p;
    assert (Items(s.popped) + s.queue)[k] == s.queue[p];
    assert (Items(t.popped) + t.queue)[k] == t.popped[k].0;
  }

  lemma Multiples(m: nat, p: nat, b: nat)
    requires b > 0 && m >= p / b + 1
    ensures m * b > p
  {
    var q := p / b;
    assert p == b * q + p % b;
    Grows(q + 1, m, b);
    assert (q + 1) * b == b * q + b;
  }

  lemma Grows(x: int, y: int, b: nat)
    requires x <= y
    ensures x * b <= y * b
  {
  }

  lemma QueueNeverOverfull(c: Config, acts: seq<Act>)
    requires Exec(c, INITIAL, acts).Some?
    ensures |Exec(c, INITIAL, acts).value.queue| <= c.capacity
  {
    PipelineRefinesFold(c, acts);
  }

  /** With the daemon's sizes every queued event is popped within two passes. */
  lemma PoppedWithinTwoPasses(c: Config, acts: seq<Act>, s: Sys, more: seq<Act>, t: Sys, p: nat)
    requires c.capacity == QUEUE_CAPACITY && c.batch == BATCH_LIMIT
    requires Exec(c, INITIAL, acts) == Some(s) && s.pc.Top? && p < |s.queue|
    requires Exec(c, s, more) == Some(t) && Passes(c, s, more) >= 2
    ensures |t.popped| > |s.popped| + p && t.popped[|s.popped| + p].0 == s.queue[p]
  {
    assert |s.queue| <= c.capacity by { QueueNeverOverfull(c, acts); }
    assert p / c.batch + 1 <= 2;
    PoppedWithin(c, s, more, t, p);
  }

  // ------------------------------------------------------------ progress of the loop

  /** Callbacks and shutdown requests are never held up, and a failed push can always raise
      its marker. */
  lemma CallbacksGoOn(c: Config, acts: seq<Act>, item: Item)
    requires Exec(c, INITIAL, acts).Some?
    ensures var s := Exec(c, INITIAL, acts).value;
            && Enabled(c, s, Offer(item)) && Enabled(c, s, RequestShutdown)
            && (Enabled(c, s, RaiseFull) <==> Lost(s.offers) > FullMarkers(s.log))
  {
    PipelineRefinesFold(c, acts);
  }

  /** The actions of the controller loop. */
  predicate IsLoopAct(act: Act) { act.Begin? || act.Pop? || act.HandleStage? || act.Wake? }

  function LoopActs(acts: seq<Act>): nat
  {
    if acts == [] then 0 else LoopActs(acts[..|acts| - 1]) + if IsLoopAct(acts[|acts| - 1]) then 1 else 0
  }

  lemma InSnoc<T>(front: seq<T>, last: T, x: T)
    ensures x in front + [last] <==> x in front || x == last
  {
  }

  lemma FlagStep(c: Config, s: Sys, act: Act)
    requires Enabled(c, s, act)
    ensures Next(c, s, act).shutdown <==> s.shutdown || act == RequestShutdown
  {
  }

  lemma {:induction false} ShutdownIsRequested(c: Config, acts: seq<Act>)
    requires Exec(c, INITIAL, acts).Some?
    ensures Exec(c, INITIAL, acts).value.shutdown <==> RequestShutdown in acts
  {
    if acts != [] {
      var n := |acts| - 1;
      ShutdownIsRequested(c, acts[..n]);
      FlagStep(c, Exec(c, INITIAL, acts[..n]).value, acts[n]);
      InSnoc(acts[..n], acts[n], RequestShutdown);
      assert acts == acts[..n] + [acts[n]];
    }
  }

  lemma {:induction false} ExitedIsShutDown(c: Config, acts: seq<Act>)
    requires Exec(c, INITIAL, acts).Some?
    ensures Exec(c, INITIAL, acts).value.pc.Exited? ==> Exec(c, INITIAL, acts).value.shutdown
  {
    if acts != [] { ExitedIsShutDown(c, acts[..|acts| - 1]); }
  }

  /** The loop leaves only after a shutdown was requested. */
  lemma ExitsOnlyAfterShutdown(c: Config, acts: seq<Act>)
    requires Exec(c, INITIAL, acts).Some?
    ensures Exec(c, INITIAL, acts).value.pc.Exited? ==> RequestShutdown in acts
  {
    ShutdownIsRequested(c, acts);
    ExitedIsShutDown(c, acts);
  }

  /** After the request the next test of the flag leaves, and then nothing more is done. */
  lemma NextBeginLeaves(c: Config, acts: seq<Act>, act: Act)
    requires Exec(c, INITIAL, acts).Some? && RequestShutdown in acts && Enabled(c, Exec(c, INITIAL, acts).value, act)
    ensures act.Begin? ==> Next(c, Exec(c, INITIAL, acts).value, act).pc.Exited?
    ensures Exec(c, INITIAL, acts).value.pc.Exited? ==> !IsLoopAct(act)
  {
    ShutdownIsRequested(c, acts);
  }

  /** The loop's next action, whatever the bus answers. */
  function LoopAct(pc: Pc, env: Env): Act
    requires !pc.Exited?
  {
    match pc
    case Top => Begin
    case Draining(_) => Pop(env)
    case Handling(_, _, _, _) => HandleStage
    case Waiting => Wake
  }

  /** Until it has left, the loop can always go on, whatever the callbacks do. */
  lemma LoopGoesOn(c: Config, acts: seq<Act>, env: Env)
    requires Exec(c, INITIAL, acts).Some? && !Exec(c, INITIAL, acts).value.pc.Exited?
    ensures Enabled(c, Exec(c, INITIAL, acts).value, LoopAct(Exec(c, INITIAL, acts).value.pc, env))
  {
    PipelineRefinesFold(c, acts);
  }

  /** The loop actions one pass takes at most, from one test of the flag to the next: the
      test, a pop and the stages of each event of a batch, and the wake. */
  function PassLength(c: Config): nat { c.batch * (STAGES + 1) + 2 }

  predicate BelowBatch(c: Config, pc: Pc) { pc.Draining? || pc.Handling? ==> pc.done < c.batch }

  /** The loop actions until the current pass is over; a wait counts towards the next. */
  function ActsLeft(c: Config, pc: Pc): int
  {
    match pc
    case Top => PassLength(c) - 1
    case Draining(done) => (c.batch - done) * (STAGES + 1)
    case Handling(done, item, _, k) => (c.batch - done - 1) * (STAGES + 1) + StageCount(item.event) - k
    case Waiting => PassLength(c)
    case Exited => 0
  }

  lemma BatchStep(b: int, done: int)
    ensures (b - done) * (STAGES + 1) == (b - done - 1) * (STAGES + 1) + STAGES + 1
    ensures done < b ==> (b - done - 1) * (STAGES + 1) >= 0
    ensures (b - (done + 1)) * (STAGES + 1) == (b - done - 1) * (STAGES + 1)
  {
  }

  /** The stage reached in a handler is below its number of stages. */
  predicate StageInRange(pc: Pc) { pc.Handling? ==> pc.stage < StageCount(pc.item.event) }

  /** Every loop action brings the end of the pass nearer, or ends it. */
  lemma AdvanceStep(c: Config, s: Sys, act: Act)
    requires c.batch > 0 && Enabled(c, s, act) && !s.shutdown && BelowBatch(c, s.pc) && StageInRange(s.pc)
    ensures var t := Next(c, s, act);
            && BelowBatch(c, t.pc) && StageInRange(t.pc)
            && ActsLeft(c, t.pc) + (if IsLoopAct(act) then 1 else 0)
               <= ActsLeft(c, s.pc) + if EndsPass(c, s, act) then PassLength(c) else 0
  {
    if s.pc.Draining? || s.pc.Handling? { BatchStep(c.batch, s.pc.done); }
  }

  lemma OneMore(n: nat, p: nat)
    ensures (n + 1) * p == n * p + p
  {
  }

  /** From s to t, n loop actions have finished m passes or come nearer to the next end. */
  predicate OnCourse(c: Config, s: Sys, t: Sys, n: nat, m: nat)
  {
    && BelowBatch(c, t.pc) && StageInRange(t.pc) && !t.shutdown
    && ActsLeft(c, t.pc) + n <= ActsLeft(c, s.pc) + m * PassLength(c)
  }

  lemma OnCourseStep(c: Config, s: Sys, t: Sys, n: nat, m: nat, act: Act)
    requires c.batch > 0 && OnCourse(c, s, t, n, m) && Enabled(c, t, act) && act != RequestShutdown
    ensures OnCourse(c, s, Next(c, t, act), n + (if IsLoopAct(act) then 1 else 0),
                     m + if EndsPass(c, t, act) then 1 else 0)
  {
    AdvanceStep(c, t, act);
    OneMore(m, PassLength(c));
    FlagStep(c, t, act);
  }

  /** Without a shutdown request every loop action is progress. */
  lemma {:induction false} AdvanceRun(c: Config, before: seq<Act>, s: Sys, acts: seq<Act>)
    requires c.batch > 0 && Exec(c, INITIAL, before) == Some(s)
    requires RequestShutdown !in before && RequestShutdown !in acts
    requires BelowBatch(c, s.pc) && StageInRange(s.pc) && Exec(c, s, acts).Some?
    ensures OnCourse(c, s, Exec(c, s, acts).value, LoopActs(acts), Passes(c, s, acts))
  {
    if acts == [] {
      ShutdownIsRequested(c, before);
    } else {
      var n := |acts| - 1;
      InSnoc(acts[..n], acts[n], RequestShutdown);
      assert acts == acts[..n] + [acts[n]];
      AdvanceRun(c, before, s, acts[..n]);
      OnCourseStep(c, s, Exec(c, s, acts[..n]).value, LoopActs(acts[..n]), Passes(c, s, acts[..n]), acts[n]);
    }
  }

  /** n times PassLength loop actions from the top of a pass finish n passes. */
  lemma PassesFinish(c: Config, before: seq<Act>, s: Sys, acts: seq<Act>, n: nat)
    requires c.batch > 0 && Exec(c, INITIAL, before) == Some(s) && s.pc.Top?
    requires RequestShutdown !in before && RequestShutdown !in acts
    requires Exec(c, s, acts).Some? && LoopActs(acts) >= n * PassLength(c)
    ensures Passes(c, s, acts) >= n
  {
    AdvanceRun(c, before, s, acts);
    var t := Exec(c, s, acts).value;
    LeftIsPositive(c, t);
    PassesCounted(Passes(c, s, acts), n, PassLength(c), LoopActs(acts), ActsLeft(c, t.pc));
  }

  lemma PassesCounted(passes: nat, n: nat, p: nat, acts: nat, left: nat)
    requires p > 0 && acts >= n * p && left + acts <= p - 1 + passes * p
    ensures passes >= n
  {
    assert (n - 1) * p == n * p - p;
    SmallerFactor(n - 1, passes, p);
  }

  lemma SmallerFactor(x: int, y: int, p: nat)
    requires x * p < y * p
    ensures x < y
  {
    if y <= x { Grows(y, x, p); }
  }

  lemma LeftIsPositive(c: Config, s: Sys)
    requires BelowBatch(c, s.pc) && StageInRange(s.pc)
    ensures ActsLeft(c, s.pc) >= 0
  {
    if s.pc.Draining? || s.pc.Handling? { BatchStep(c.batch, s.pc.done); }
  }

  /** Until a shutdown is requested, an event with fewer than n batches ahead of it at the
      top of a pass is popped within n times PassLength actions of the loop, whatever is
      pushed meanwhile. */
  lemma PoppedWithinActs(c: Config, before: seq<Act>, s: Sys, acts: seq<Act>, t: Sys, p: nat, n: nat)
    requires c.batch > 0 && Exec(c, INITIAL, before) == Some(s) && s.pc.Top? && p < |s.queue|
    requires RequestShutdown !in before && RequestShutdown !in acts
    requires p < n * c.batch && Exec(c, s, acts) == Some(t) && LoopActs(acts) >= n * PassLength(c)
    ensures |t.popped| > |s.popped| + p && t.popped[|s.popped| + p].0 == s.queue[p]
  {
    PassesFinish(c, before, s, acts, n);
    Batches(p, n, c.batch);
    PoppedWithin(c, s, acts, t, p);
  }

  /** The least such n. */
  lemma Batches(p: nat, n: nat, b: nat)
    requires b > 0
    ensures p < n * b <==> n >= p / b + 1
  {
    if n >= p / b + 1 {
      Multiples(n, p, b);
    } else {
      Grows(n, p / b, b);
      assert p == b * (p / b) + p % b;
    }
  }

  /** With the daemon's sizes: within 504 loop actions. */
  lemma PoppedWithin504(c: Config, before: seq<Act>, s: Sys, acts: seq<Act>, t: Sys, p: nat)
    requires c.capacity == QUEUE_CAPACITY && c.batch == BATCH_LIMIT
    requires Exec(c, INITIAL, before) == Some(s) && s.pc.Top? && p < |s.queue|
    requires RequestShutdown !in before && RequestShutdown !in acts
    requires Exec(c, s, acts) == Some(t) && LoopActs(acts) >= 504
    ensures |t.popped| > |s.popped| + p && t.popped[|s.popped| + p].0 == s.queue[p]
  {
    assert PassLength(c) == 252;
    PassesFinish(c, before, s, acts, 2);
    PoppedWithinTwoPasses(c, before, s, acts, t, p);
  }

  /** The loop actions from a shutdown request until the loop has left. */
  function ActsToExit(c: Config, pc: Pc): int
  {
    match pc
    case Top => 1
    case Draining(done) => (c.batch - done) * (STAGES + 1) + 2
    case Handling(done, item, _, k) => (c.batch - done - 1) * (STAGES + 1) + StageCount(item.event) - k + 2
    case Waiting => 2
    case Exited => 0
  }

  lemma ExitStep(c: Config, s: Sys, act: Act)
    requires c.batch > 0 && Enabled(c, s, act) && s.shutdown && BelowBatch(c, s.pc) && StageInRange(s.pc)
    ensures var t := Next(c, s, act);
            && t.shutdown && BelowBatch(c, t.pc) && StageInRange(t.pc)
            && ActsToExit(c, t.pc) + (if IsLoopAct(act) then 1 else 0) <= ActsToExit(c, s.pc)
  {
    if s.pc.Draining? || s.pc.Handling? { BatchStep(c.batch, s.pc.done); }
  }

  /** After a shutdown request the loop finishes at most the pass it is in: it takes no
      more than PassLength further actions. */
  lemma {:induction false} ShutdownEndsLoop(c: Config, s: Sys, acts: seq<Act>)
    requires c.batch > 0 && s.shutdown && BelowBatch(c, s.pc) && StageInRange(s.pc) && Exec(c, s, acts).Some?
    ensures var t := Exec(c, s, acts).value;
            && t.shutdown && BelowBatch(c, t.pc) && StageInRange(t.pc) && ActsToExit(c, t.pc) >= 0
            && LoopActs(acts) + ActsToExit(c, t.pc) <= ActsToExit(c, s.pc) <= PassLength(c)
  {
    if s.pc.Draining? || s.pc.Handling? {
      BatchStep(c.batch, s.pc.done);
      BatchBound(c.batch, s.pc.done);
    }
    if acts != [] {
      var n := |acts| - 1;
      ShutdownEndsLoop(c, s, acts[..n]);
      var u := Exec(c, s, acts[..n]).value;
      ExitStep(c, u, acts[n]);
      var t := Next(c, u, acts[n]);
      if t.pc.Draining? || t.pc.Handling? { BatchStep(c.batch, t.pc.done); }
    }
  }

  lemma BatchBound(b: nat, done: nat)
    requires done < b
    ensures (b - done) * (STAGES + 1) <= b * (STAGES + 1)
  {
  }
}
