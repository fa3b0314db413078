/** The statistics poller: its control structure, the thread loop and the control
    calls, as a protocol over the poller mutex and condition variable. */
module Poller {
  import opened CText

  /** The fields guarded by the poller mutex. */
  datatype Control = Control(enabled: bool, interval: u32, running: bool, shutdown: bool)

  // ------------------------------------------------------------ critical sections

  function Started(c: Control): Control { if c.running then c else c.(shutdown := false) }

  function StopRequested(c: Control): Control { if c.running then c.(shutdown := true) else c }

  function Switched(c: Control, on: bool): Control { c.(enabled := on) }

  function Retuned(c: Control, seconds: u32): Control { if seconds > 0 then c.(interval := seconds) else c }

  /** A thread's own change of the flags: marking itself running, and stopped. */
  function MarkedBy(c: Control, pc: Pc): Control
  {
    if pc.Created? then c.(running := true) else if pc.Exiting? then c.(running := false) else c
  }

  class Poller {
    var enabled: bool
    var interval: u32
    var running: bool
    var shutdown: bool

    function Contents(): Control
      reads this
    {
      Control(enabled, interval, running, shutdown)
    }

    constructor (enabled: bool, interval: u32)
      ensures Contents() == Control(enabled, interval, false, false)
    {
      this.enabled, this.interval, running, shutdown := enabled, interval, false, false;
    }

    /** The first half of start: refused while running, else the flag is cleared and
        a thread will be created. */
    method StartCheck() returns (create: bool)
      modifies this`shutdown
      ensures create <==> !old(running)
      ensures Contents() == Started(old(Contents()))
      ensures shutdown == if create then false else old(shutdown)
    {
      if running { return false; }
      shutdown := false;
      create := true;
    }

    /** The first half of stop: nothing while not running, else the thread is told to
        leave and will be joined. */
    method StopRequest() returns (join: bool)
      modifies this`shutdown
      ensures join <==> old(running)
      ensures Contents() == StopRequested(old(Contents()))
      ensures shutdown == if join then true else old(shutdown)
    {
      if !running { return false; }
      shutdown := true;
      join := true;
    }

    method SetEnabled(on: bool)
      modifies this`enabled
      ensures Contents() == Switched(old(Contents()), on)
      ensures enabled == on
    {
      enabled := on;
    }

    /** Zero seconds are refused; any other interval is taken. */
    method SetInterval(seconds: u32) returns (ok: bool)
      modifies this`interval
      ensures ok <==> seconds > 0
      ensures Contents() == Retuned(old(Contents()), seconds)
      ensures interval == if ok then seconds else old(interval)
    {
      if seconds == 0 { return false; }
      interval := seconds;
      ok := true;
    }

    /** The thread's own sections: marking itself running and stopped. */
    method MarkRunning(on: bool)
      modifies this`running
      ensures Contents() == MarkedBy(old(Contents()), if on then Created else Exiting)
      ensures running == on
    {
      running := on;
    }

    /** The top of a cycle, and the test after a wait: leave, or go on with what was sampled. */
    method Sample() returns (leave: bool, collect: bool, wait: u32)
      ensures leave <==> shutdown
      ensures !leave ==> collect == enabled && wait == interval
      ensures Advanced(Contents(), Top) ==
              if leave then Exiting else if collect then Collecting(wait) else AboutToWait(wait)
      ensures forall w, signalled :: Advanced(Contents(), Sleeping(w, signalled)) == if leave then Exiting else Top
    {
      leave, collect, wait := shutdown, enabled, interval;
    }
  }

  // ------------------------------------------------------------ the protocol

  /** Where a poller thread is. */
  datatype Pc =
    | Created                        // exists, has not marked itself running yet
    | Top                            // about to sample the control fields
    | Collecting(wait: u32)          // sampled "enabled", collecting
    | AboutToWait(wait: u32)
    | Sleeping(wait: u32, signalled: bool)
    | Exiting                        // left the loop, still marked running
    | Gone

  datatype Sys = Sys(
    control: Control, threads: seq<Pc>,
    creating: nat)        // starts that passed their check and have not created the thread yet

  /** Signals name the waiting thread they wake. */
  datatype Act =
    | StartCheck | Create | CreateFails | StopRequest(pick: nat)
    | SetEnabled(on: bool) | SetInterval(seconds: u32, pick: nat) | Trigger(pick: nat)
    | ThreadStep(i: nat)
    | Timeout(i: nat)     // the interval has run out (or the wait ends spuriously)

  predicate Waits(pc: Pc) { pc.Sleeping? && !pc.signalled }

  /** A signal wakes some waiting thread, if there is one; otherwise it is lost. */
  predicate MayWake(threads: seq<Pc>, pick: nat)
  {
    || (pick < |threads| && Waits(threads[pick]))
    || forall j | 0 <= j < |threads| :: !Waits(threads[j])
  }

  function Signalled(threads: seq<Pc>, pick: nat): seq<Pc>
  {
    if pick < |threads| && Waits(threads[pick]) then threads[pick := Sleeping(threads[pick].wait, true)] else threads
  }

  /** A sleeping thread goes on when it has been signalled or its wait times out. */
  predicate Enabled(s: Sys, act: Act)
  {
    match act
    case Create => s.creating > 0
    case CreateFails => s.creating > 0
    case StopRequest(pick) => MayWake(s.threads, pick)
    case SetInterval(_, pick) => MayWake(s.threads, pick)
    case Trigger(pick) => MayWake(s.threads, pick)
    case ThreadStep(i) => i < |s.threads| && !s.threads[i].Gone? && !Waits(s.threads[i])
    case Timeout(i) => i < |s.threads| && Waits(s.threads[i])
    case _ => true
  }

  /** One step of a thread. */
  function Advanced(c: Control, pc: Pc): Pc
    requires !pc.Gone?
  {
    match pc
    case Created => Top
    case Top => if c.shutdown then Exiting else if c.enabled then Collecting(c.interval) else AboutToWait(c.interval)
    case Collecting(w) => AboutToWait(w)
    case AboutToWait(w) => Sleeping(w, false)
    case Sleeping(_, _) => if c.shutdown then Exiting else Top
    case Exiting => Gone
  }

  function Next(s: Sys, act: Act): Sys
    requires Enabled(s, act)
  {
    match act
    case StartCheck =>
      s.(control := Started(s.control), creating := if s.control.running then s.creating else s.creating + 1)
    case Create => s.(creating := s.creating - 1, threads := s.threads + [Created])
    case CreateFails => s.(creating := s.creating - 1)
    case StopRequest(pick) =>
      s.(control := StopRequested(s.control),
         threads := if s.control.running then Signalled(s.threads, pick) else s.threads)
    case SetEnabled(on) => s.(control := Switched(s.control, on))
    case SetInterval(n, pick) =>
      s.(control := Retuned(s.control, n), threads := if n > 0 then Signalled(s.threads, pick) else s.threads)
    case Trigger(pick) => s.(threads := if s.control.running then Signalled(s.threads, pick) else s.threads)
    case ThreadStep(i) =>
      var pc := Advanced(s.control, s.threads[i]);
      Sys(MarkedBy(s.control, s.threads[i]), s.threads[i := pc], s.creating)
    case Timeout(i) => s.(threads := s.threads[i := Advanced(s.control, s.threads[i])])
  }

  function Exec(s: Sys, acts: seq<Act>): Option<Sys>
  {
    if acts == [] then Some(s)
    else
      match Exec(s, acts[..|acts| - 1])
      case None => None
      case Some(t) => if Enabled(t, acts[|acts| - 1]) then Some(Next(t, acts[|acts| - 1])) else None
  }

  function Initial(enabled: bool, interval: u32): Sys { Sys(Control(enabled, interval, false, false), [], 0) }

  lemma Extend(s: Sys, acts: seq<Act>, act: Act)
    requires Exec(s, acts).Some? && Enabled(Exec(s, acts).value, act)
    ensures Exec(s, acts + [act]) == Some(Next(Exec(s, acts).value, act))
  {
    assert (acts + [act])[..|acts|] == acts;
  }

  function Occurrences(acts: seq<Act>, act: Act): nat
  {
    if acts == [] then 0
    else Occurrences(acts[..|acts| - 1], act) + if acts[|acts| - 1] == act then 1 else 0
  }

  /** The action takes a thread into a collection. */
  predicate BeginsCollection(s: Sys, act: Act)
    requires Enabled(s, act)
  {
    act.ThreadStep? && !s.threads[act.i].Collecting? && Next(s, act).threads[act.i].Collecting?
  }

  /** The action takes a thread into its wait. */
  predicate BeginsWait(s: Sys, act: Act)
    requires Enabled(s, act)
  {
    act.ThreadStep? && !s.threads[act.i].Sleeping? && Next(s, act).threads[act.i].Sleeping?
  }

  /** The collections begun during a run. */
  function CollectionsBegun(s: Sys, acts: seq<Act>): nat
    requires Exec(s, acts).Some?
  {
    if acts == [] then 0
    else
      var front, last := acts[..|acts| - 1], acts[|acts| - 1];
      CollectionsBegun(s, front) + if BeginsCollection(Exec(s, front).value, last) then 1 else 0
  }

  /** The waits begun during a run. */
  function WaitsBegun(s: Sys, acts: seq<Act>): nat
    requires Exec(s, acts).Some?
  {
    if acts == [] then 0
    else
      var front, last := acts[..|acts| - 1], acts[|acts| - 1];
      WaitsBegun(s, front) + if BeginsWait(Exec(s, front).value, last) then 1 else 0
  }

  // ------------------------------------------------------------ shutdown

  /** The steps a thread still takes once shutdown is flagged. */
  function StepsLeft(pc: Pc): nat
  {
    match pc
    case Created => 3
    case Top => 2
    case Collecting(_) => 4
    case AboutToWait(_) => 3
    case Sleeping(_, _) => 2
    case Exiting => 1
    case Gone => 0
  }

  /** The waits the threads still begin once shutdown is flagged. */
  function WaitsLeft(threads: seq<Pc>): nat
  {
    if threads == [] then 0
    else WaitsLeft(threads[..|threads| - 1])
         + if threads[|threads| - 1].Collecting? || threads[|threads| - 1].AboutToWait? then 1 else 0
  }

  lemma {:induction false} WaitsLeftDependsOn(xs: seq<Pc>, ys: seq<Pc>)
    requires |xs| == |ys|
    requires forall i | 0 <= i < |xs| ::
               (xs[i].Collecting? || xs[i].AboutToWait?) == (ys[i].Collecting? || ys[i].AboutToWait?)
    ensures WaitsLeft(xs) == WaitsLeft(ys)
  {
    if xs != [] { WaitsLeftDependsOn(xs[..|xs| - 1], ys[..|ys| - 1]); }
  }

  lemma {:induction false} WaitsLeftUpdate(xs: seq<Pc>, i: nat, pc: Pc)
    requires i < |xs|
    ensures WaitsLeft(xs[i := pc]) + (if xs[i].Collecting? || xs[i].AboutToWait? then 1 else 0)
         == WaitsLeft(xs) + (if pc.Collecting? || pc.AboutToWait? then 1 else 0)
  {
    var n := |xs| - 1;
    if i == n {
      assert xs[i := pc][..n] == xs[..n];
    } else {
      assert xs[i := pc][..n] == xs[..n][i := pc];
      WaitsLeftUpdate(xs[..n], i, pc);
    }
  }

  /** Every start of the run is refused, because the thread is still marked running. */
  predicate StartsRefused(s: Sys, acts: seq<Act>)
    requires Exec(s, acts).Some?
  {
    acts != [] ==>
      && StartsRefused(s, acts[..|acts| - 1])
      && (acts[|acts| - 1].StartCheck? ==> Exec(s, acts[..|acts| - 1]).value.control.running)
  }

  lemma ShutdownStep(t: Sys, act: Act, i: nat)
    requires t.control.shutdown && Enabled(t, act) && (act.StartCheck? ==> t.control.running)
    requires i < |t.threads|
    ensures var u := Next(t, act);
            && u.control.shutdown && |u.threads| >= |t.threads| && !BeginsCollection(t, act)
            && StepsLeft(u.threads[i]) + (if act == ThreadStep(i) || act == Timeout(i) then 1 else 0)
               <= StepsLeft(t.threads[i])
  {
  }

  lemma SignalKeepsWaits(threads: seq<Pc>, pick: nat)
    ensures WaitsLeft(Signalled(threads, pick)) == WaitsLeft(threads)
  {
    WaitsLeftDependsOn(threads, Signalled(threads, pick));
  }

  lemma ThreadWaits(t: Sys, i: nat, act: Act)
    requires t.control.shutdown && Enabled(t, act) && (act == ThreadStep(i) || act == Timeout(i))
    ensures WaitsLeft(Next(t, act).threads) + (if BeginsWait(t, act) then 1 else 0) == WaitsLeft(t.threads)
  {
    WaitsLeftUpdate(t.threads, i, Advanced(t.control, t.threads[i]));
  }

  lemma ShutdownWaits(t: Sys, act: Act)
    requires t.control.shutdown && Enabled(t, act)
    ensures WaitsLeft(Next(t, act).threads) + (if BeginsWait(t, act) then 1 else 0) == WaitsLeft(t.threads)
  {
    match act
    case Create => assert (t.threads + [Created])[..|t.threads|] == t.threads;
    case ThreadStep(j) => ThreadWaits(t, j, act);
    case Timeout(j) => ThreadWaits(t, j, act);
    case StopRequest(pick) => SignalKeepsWaits(t.threads, pick);
    case SetInterval(_, pick) => SignalKeepsWaits(t.threads, pick);
    case Trigger(pick) => SignalKeepsWaits(t.threads, pick);
    case _ =>
  }

  /** Once shutdown is flagged and as long as every start is refused, no new collection
      begins, every thread leaves within its remaining steps (at most the collection in
      flight, one wait and the exit), and the waits still begun are those of threads
      that were collecting or about to wait. */
  lemma {:induction false} ShutdownEnds(s: Sys, acts: seq<Act>, i: nat)
    requires s.control.shutdown && Exec(s, acts).Some? && StartsRefused(s, acts) && i < |s.threads|
    ensures var t := Exec(s, acts).value;
            && t.control.shutdown && |t.threads| >= |s.threads|
            && CollectionsBegun(s, acts) == 0
            && WaitsBegun(s, acts) + WaitsLeft(t.threads) == WaitsLeft(s.threads)
            && Occurrences(acts, ThreadStep(i)) + Occurrences(acts, Timeout(i)) + StepsLeft(t.threads[i])
               <= StepsLeft(s.threads[i]) <= 4
  {
    if acts != [] {
      var n := |acts| - 1;
      ShutdownEnds(s, acts[..n], i);
      ShutdownStep(Exec(s, acts[..n]).value, acts[n], i);
      ShutdownWaits(Exec(s, acts[..n]).value, acts[n]);
    }
  }

  // ------------------------------------------------------------ disabling

  function InFlight(threads: seq<Pc>): nat
  {
    if threads == [] then 0
    else InFlight(threads[..|threads| - 1]) + if threads[|threads| - 1].Collecting? then 1 else 0
  }

  predicate NoEnable(acts: seq<Act>) { forall i | 0 <= i < |acts| :: acts[i] != SetEnabled(true) }

  /** After disabling, no collection begins until the poller is enabled again: only
      those already sampled still run. */
  lemma {:induction false} DisableEnds(s: Sys, acts: seq<Act>)
    requires !s.control.enabled && NoEnable(acts) && Exec(s, acts).Some?
    ensures var t := Exec(s, acts).value;
            !t.control.enabled && CollectionsBegun(s, acts) == 0
  {
    if acts != [] { DisableEnds(s, acts[..|acts| - 1]); }
  }

  /** Counted from the call that disables the poller, whatever is under way at that moment. */
  lemma DisablingEnds(s: Sys, acts: seq<Act>)
    requires NoEnable(acts) && Exec(Next(s, SetEnabled(false)), acts).Some?
    ensures CollectionsBegun(Next(s, SetEnabled(false)), acts) == 0
    ensures Next(s, SetEnabled(false)).threads == s.threads
  {
    DisableEnds(Next(s, SetEnabled(false)), acts);
  }

  /** And from the call that enables it, the next cycle of a thread collects. */
  lemma EnablingCollects(s: Sys, i: nat)
    requires i < |s.threads| && s.threads[i].Top? && !s.control.shutdown
    ensures var t := Next(s, SetEnabled(true));
            Enabled(t, ThreadStep(i)) && BeginsCollection(t, ThreadStep(i))
  {
  }

  // ------------------------------------------------------------ at most one thread

  function Live(threads: seq<Pc>): nat
  {
    if threads == [] then 0
    else Live(threads[..|threads| - 1]) + if threads[|threads| - 1].Gone? then 0 else 1
  }

  /** Threads between marking themselves running and marking themselves stopped. */
  function Marked(threads: seq<Pc>): nat
  {
    if threads == [] then 0
    else
      var last := threads[|threads| - 1];
      Marked(threads[..|threads| - 1]) + if last.Gone? || last.Created? then 0 else 1
  }

  /** A start is under way: between its check and the thread marking itself running. */
  predicate InWindow(s: Sys) { s.creating > 0 || Live(s.threads) > Marked(s.threads) }

  /** No start is attempted while another is under way. */
  predicate Careful(s: Sys, acts: seq<Act>)
    requires Exec(s, acts).Some?
  {
    acts != [] ==>
      && Careful(s, acts[..|acts| - 1])
      && (acts[|acts| - 1].StartCheck? ==> !InWindow(Exec(s, acts[..|acts| - 1]).value))
  }

  lemma {:induction false} CountsUpdate(xs: seq<Pc>, i: nat, pc: Pc)
    requires i < |xs|
    ensures Live(xs[i := pc]) + (if xs[i].Gone? then 0 else 1) == Live(xs) + (if pc.Gone? then 0 else 1)
    ensures Marked(xs[i := pc]) + (if xs[i].Gone? || xs[i].Created? then 0 else 1)
         == Marked(xs) + (if pc.Gone? || pc.Created? then 0 else 1)
    ensures InFlight(xs) <= Marked(xs) <= Live(xs)
  {
    var n := |xs| - 1;
    BoundsHold(xs);
    if i == n {
      assert xs[i := pc][..n] == xs[..n];
    } else {
      assert xs[i := pc][..n] == xs[..n][i := pc];
      CountsUpdate(xs[..n], i, pc);
    }
  }

  lemma {:induction false} BoundsHold(xs: seq<Pc>)
    ensures InFlight(xs) <= Marked(xs) <= Live(xs)
  {
    if xs != [] { BoundsHold(xs[..|xs| - 1]); }
  }

  lemma {:induction false} CountsSignalled(xs: seq<Pc>, ys: seq<Pc>)
    requires |xs| == |ys|
    requires forall i | 0 <= i < |xs| :: xs[i].Gone? == ys[i].Gone? && xs[i].Created? == ys[i].Created?
    ensures Live(xs) == Live(ys) && Marked(xs) == Marked(ys)
  {
    if xs != [] { CountsSignalled(xs[..|xs| - 1], ys[..|ys| - 1]); }
  }

  predicate SingleInv(s: Sys)
  {
    && s.creating + Live(s.threads) <= 1
    && s.control.running == (Marked(s.threads) == 1)
  }

  lemma SingleThreadStep(s: Sys, i: nat, act: Act)
    requires SingleInv(s) && Enabled(s, act) && (act == ThreadStep(i) || act == Timeout(i))
    ensures SingleInv(Next(s, act))
  {
    CountsUpdate(s.threads, i, Advanced(s.control, s.threads[i]));
    CountsUpdate(s.threads, i, Gone);
    BoundsHold(s.threads[i := Gone]);
  }

  lemma SignalKeepsCounts(threads: seq<Pc>, pick: nat)
    ensures Live(Signalled(threads, pick)) == Live(threads) && Marked(Signalled(threads, pick)) == Marked(threads)
  {
    CountsSignalled(threads, Signalled(threads, pick));
  }

  lemma SingleStep(s: Sys, act: Act)
    requires SingleInv(s) && Enabled(s, act) && (act.StartCheck? ==> !InWindow(s))
    ensures SingleInv(Next(s, act))
  {
    match act
    case ThreadStep(i) => SingleThreadStep(s, i, act);
    case Timeout(i) => SingleThreadStep(s, i, act);
    case StopRequest(pick) => SignalKeepsCounts(s.threads, pick);
    case SetInterval(_, pick) => SignalKeepsCounts(s.threads, pick);
    case Trigger(pick) => SignalKeepsCounts(s.threads, pick);
    case _ =>
      BoundsHold(s.threads);
      assert (s.threads + [Created])[..|s.threads|] == s.threads;
  }

  /** At most one poller thread is alive, and the running flag tells whether it has
      marked itself, as long as no start is attempted while another is under way; so
      at most one collection is in flight, and after disabling at most one still runs. */
  lemma {:induction false} AtMostOneThread(enabled: bool, interval: u32, acts: seq<Act>)
    requires Exec(Initial(enabled, interval), acts).Some? && Careful(Initial(enabled, interval), acts)
    ensures var s := Exec(Initial(enabled, interval), acts).value;
            && SingleInv(s) && Live(s.threads) <= 1 && InFlight(s.threads) <= 1
            && (InWindow(s) ==> !s.control.running)
  {
    if acts != [] {
      var n := |acts| - 1;
      AtMostOneThread(enabled, interval, acts[..n]);
      SingleStep(Exec(Initial(enabled, interval), acts[..n]).value, acts[n]);
    }
    BoundsHold(Exec(Initial(enabled, interval), acts).value.threads);
  }

  lemma CreateAddsOne(s: Sys)
    requires s.creating > 0
    ensures Live(Next(s, Create).threads) == Live(s.threads) + 1
  {
    assert (s.threads + [Created])[..|s.threads|] == s.threads;
  }

  /** A start that passes its check and creates its thread adds a live one. */
  lemma StartAddsOne(s: Sys) returns (acts: seq<Act>)
    requires !s.control.running
    ensures acts != [] && acts[0] == StartCheck && Exec(s, acts).Some?
    ensures Exec(s, acts).value.creating == s.creating
    ensures Live(Exec(s, acts).value.threads) == Live(s.threads) + 1
  {
    acts := [StartCheck];
    Extend(s, [], StartCheck);
    assert [] + acts == acts;
    Extend(s, acts, Create);
    CreateAddsOne(Next(s, StartCheck));
    acts := acts + [Create];
  }

  lemma OneMoreCreated(s: Sys, acts: seq<Act>)
    requires Exec(s, acts).Some? && Exec(s, acts).value.creating > 0
    ensures Exec(s, acts + [Create]).Some?
    ensures Live(Exec(s, acts + [Create]).value.threads) == Live(Exec(s, acts).value.threads) + 1
  {
    CreateAddsOne(Exec(s, acts).value);
    Extend(s, acts, Create);
  }

  /** The run begins with a start and leads to two live threads. */
  ghost predicate StartsSecond(s: Sys, acts: seq<Act>)
  {
    acts != [] && acts[0] == StartCheck && Exec(s, acts).Some? && Live(Exec(s, acts).value.threads) == 2
  }

  /** The condition is exact: a start attempted while another is under way passes its
      check, and when both have created their threads two are alive. */
  lemma StartInWindowDoubles(s: Sys)
    requires SingleInv(s) && InWindow(s)
    ensures exists acts :: StartsSecond(s, acts)
  {
    BoundsHold(s.threads);
    var acts := StartAddsOne(s);
    if s.creating > 0 {
      OneMoreCreated(s, acts);
      assert StartsSecond(s, acts + [Create]);
    } else {
      assert StartsSecond(s, acts);
    }
  }

  /** A stop takes effect exactly when the thread has marked itself running: while a
      start is under way it changes nothing, and the thread then enters its loop. */
  lemma StopInWindowIsLost(s: Sys, pick: nat)
    requires SingleInv(s) && Enabled(s, StopRequest(pick))
    ensures Next(s, StopRequest(pick)).control.shutdown || !s.control.running
    ensures InWindow(s) ==> Next(s, StopRequest(pick)) == s
    ensures Live(s.threads) == 1 && !InWindow(s) ==> Next(s, StopRequest(pick)).control.shutdown
  {
    BoundsHold(s.threads);
  }

  // ------------------------------------------------------------ stopping and the signal

  /** The timeouts a thread still waits for once shutdown is flagged, if nothing
      signals it any more. */
  function TimeoutsLeft(pc: Pc): nat
  {
    match pc
    case Collecting(_) => 1
    case AboutToWait(_) => 1
    case Sleeping(_, signalled) => if signalled then 0 else 1
    case _ => 0
  }

  predicate Signals(c: Control, act: Act)
  {
    match act
    case StopRequest(_) => c.running
    case Trigger(_) => c.running
    case SetInterval(n, _) => n > 0
    case _ => false
  }

  predicate Silent(s: Sys, acts: seq<Act>)
    requires Exec(s, acts).Some?
  {
    acts != [] ==>
      && Silent(s, acts[..|acts| - 1])
      && !Signals(Exec(s, acts[..|acts| - 1]).value.control, acts[|acts| - 1])
  }

  lemma {:induction false} TimeoutsAfterShutdown(s: Sys, acts: seq<Act>, i: nat)
    requires s.control.shutdown && Exec(s, acts).Some? && StartsRefused(s, acts) && Silent(s, acts)
    requires i < |s.threads|
    ensures |Exec(s, acts).value.threads| >= |s.threads| && Exec(s, acts).value.control.shutdown
    ensures Occurrences(acts, Timeout(i)) + TimeoutsLeft(Exec(s, acts).value.threads[i]) == TimeoutsLeft(s.threads[i])
  {
    if acts != [] {
      TimeoutsAfterShutdown(s, acts[..|acts| - 1], i);
    }
  }

  lemma OnlyOneLive(threads: seq<Pc>, i: nat, j: nat)
    requires Live(threads) <= 1 && i < |threads| && j < |threads|
    requires !threads[i].Gone? && !threads[j].Gone?
    ensures i == j
  {
    if i != j {
      CountsUpdate(threads, i, Gone);
      CountsUpdate(threads[i := Gone], j, Gone);
    }
  }

  /** A stop request signals the thread exactly if it sleeps at that moment: while no
      further signal arrives and every start is refused, the stopped thread leaves
      without any timeout if it was not collecting or about to wait, and otherwise
      only after exactly one, having slept a whole interval. */
  lemma StopWaitsForTimeoutIff(s: Sys, i: nat, pick: nat, acts: seq<Act>, u: Sys)
    requires SingleInv(s) && s.control.running
    requires i < |s.threads| && !s.threads[i].Gone? && Enabled(s, StopRequest(pick))
    requires var t := Next(s, StopRequest(pick));
             Exec(t, acts) == Some(u) && StartsRefused(t, acts) && Silent(t, acts)
    requires i < |u.threads| && u.threads[i].Gone?
    ensures Occurrences(acts, Timeout(i)) == if s.threads[i].Collecting? || s.threads[i].AboutToWait? then 1 else 0
  {
    var t := Next(s, StopRequest(pick));
    BoundsHold(s.threads);
    if pick < |s.threads| && Waits(s.threads[pick]) { OnlyOneLive(s.threads, i, pick); }
    TimeoutsAfterShutdown(t, acts, i);
  }

  /** The step thread i takes next, one that signals nobody and starts nothing. */
  function OwnStep(t: Sys, i: nat): Act
    requires i < |t.threads|
  {
    if Waits(t.threads[i]) then Timeout(i) else ThreadStep(i)
  }

  lemma OwnStepExtends(s: Sys, acts: seq<Act>, i: nat)
    requires Exec(s, acts).Some? && StartsRefused(s, acts) && Silent(s, acts)
    requires i < |Exec(s, acts).value.threads| && !Exec(s, acts).value.threads[i].Gone?
    ensures var t := Exec(s, acts).value;
            var run := acts + [OwnStep(t, i)];
            Exec(s, run) == Some(Next(t, OwnStep(t, i))) && StartsRefused(s, run) && Silent(s, run)
  {
    Extend(s, acts, OwnStep(Exec(s, acts).value, i));
    assert (acts + [OwnStep(Exec(s, acts).value, i)])[..|acts|] == acts;
  }

  /** Such runs exist from every state with shutdown flagged: thread i can leave on its
      own steps. */
  lemma {:induction false} CanLeave(s: Sys, acts: seq<Act>, i: nat) returns (run: seq<Act>)
    requires Exec(s, acts).Some? && StartsRefused(s, acts) && Silent(s, acts)
    requires i < |Exec(s, acts).value.threads| && Exec(s, acts).value.control.shutdown
    ensures acts <= run && Exec(s, run).Some? && StartsRefused(s, run) && Silent(s, run)
    ensures i < |Exec(s, run).value.threads| && Exec(s, run).value.threads[i].Gone?
    decreases StepsLeft(Exec(s, acts).value.threads[i])
  {
    var t := Exec(s, acts).value;
    if t.threads[i].Gone? { return acts; }
    OwnStepExtends(s, acts, i);
    ShutdownStep(t, OwnStep(t, i), i);
    run := CanLeave(s, acts + [OwnStep(t, i)], i);
  }

  // ------------------------------------------------------------ starting again, cycles and signals

  /** After an accepted start the thread may be created or its creation may fail; a failed
      creation leaves no thread behind, and the start can be repeated. */
  lemma FailedCreationCanBeRepeated(s: Sys)
    requires SingleInv(s) && !InWindow(s) && !s.control.running
    ensures var t := Next(s, StartCheck);
            && Enabled(t, Create) && Enabled(t, CreateFails)
            && Next(t, CreateFails).threads == s.threads && Next(t, CreateFails).creating == 0
            && !InWindow(Next(t, CreateFails)) && !Next(t, CreateFails).control.running
  {
  }

  /** The thread has left its loop. */
  predicate HasLeft(threads: seq<Pc>, i: nat) { i < |threads| && (threads[i].Exiting? || threads[i].Gone?) }

  lemma StaysUp(s: Sys, act: Act, i: nat)
    requires !s.control.shutdown && Enabled(s, act) && !act.StopRequest?
    ensures !Next(s, act).control.shutdown && |s.threads| <= |Next(s, act).threads|
    ensures HasLeft(Next(s, act).threads, i) ==> HasLeft(s.threads, i)
  {
  }

  /** A start that passes its check clears the shutdown flag; from then on, until a stop is
      requested, it stays clear and no thread leaves its loop. */
  lemma {:induction false} StartedRunsOn(s: Sys, acts: seq<Act>, i: nat)
    requires !s.control.running && Exec(s, [StartCheck] + acts).Some?
    requires forall k | 0 <= k < |acts| :: !acts[k].StopRequest?
    ensures var t := Exec(s, [StartCheck] + acts).value;
            && !t.control.shutdown && |s.threads| <= |t.threads|
            && (HasLeft(t.threads, i) ==> HasLeft(s.threads, i))
  {
    var all := [StartCheck] + acts;
    if acts == [] {
      assert all == [StartCheck] && all[..0] == [];
    } else {
      assert all[..|all| - 1] == [StartCheck] + acts[..|acts| - 1];
      StartedRunsOn(s, acts[..|acts| - 1], i);
      StaysUp(Exec(s, [StartCheck] + acts[..|acts| - 1]).value, acts[|acts| - 1], i);
    }
  }

  /** One cycle: a thread at the top of its loop, with shutdown not flagged, collects
      exactly if the poller is enabled at that moment and then waits the interval of that
      moment, whatever is set meanwhile. */
  lemma CycleUsesSample(s: Sys, i: nat, mid: Sys, last: Sys)
    requires i < |s.threads| && s.threads[i].Top? && !s.control.shutdown
    requires i < |mid.threads| && i < |last.threads|
    ensures var pc := Next(s, ThreadStep(i)).threads[i];
            && (pc.Collecting? <==> s.control.enabled)
            && (mid.threads[i] == pc && pc.Collecting? ==>
                  Next(mid, ThreadStep(i)).threads[i] == AboutToWait(s.control.interval))
            && (last.threads[i] == AboutToWait(s.control.interval) ==>
                  Next(last, ThreadStep(i)).threads[i] == Sleeping(s.control.interval, false))
            && (!s.control.enabled ==> pc == AboutToWait(s.control.interval))
  {
  }

  lemma WaitingIsMarked(threads: seq<Pc>, i: nat)
    requires i < |threads| && Waits(threads[i])
    ensures Marked(threads) >= 1
  {
    CountsUpdate(threads, i, Gone);
  }

  /** A trigger, a stop request and a new interval each end the thread's wait at once: it
      is signalled, and its next step takes it out of the wait without a timeout. */
  lemma SignalsWake(s: Sys, i: nat, act: Act)
    requires SingleInv(s) && i < |s.threads| && Waits(s.threads[i]) && Enabled(s, act)
    requires act.Trigger? || act.StopRequest? || (act.SetInterval? && act.seconds > 0)
    ensures var t := Next(s, act);
            && i < |t.threads| && Enabled(t, ThreadStep(i))
            && Next(t, ThreadStep(i)).threads[i] == (if t.control.shutdown then Exiting else Top)
            && (!act.StopRequest? ==> t.control.shutdown == s.control.shutdown)
            && (act.SetInterval? ==> t.control.interval == act.seconds)
  {
    WaitingIsMarked(s.threads, i);
    BoundsHold(s.threads);
    if act.pick < |s.threads| && Waits(s.threads[act.pick]) { OnlyOneLive(s.threads, i, act.pick); }
  }

  // ------------------------------------------------------------ the windows are reachable

  /** From the initial state, two starts one after the other give two live threads. */
  lemma TwoStartsDouble(enabled: bool, interval: u32)
    ensures var s := Initial(enabled, interval);
            var acts := [StartCheck] + [StartCheck] + [Create] + [Create];
            Exec(s, acts).Some? && Live(Exec(s, acts).value.threads) == 2
  {
    var s := Initial(enabled, interval);
    Extend(s, [], StartCheck);
    assert [] + [StartCheck] == [StartCheck];
    Extend(s, [StartCheck], StartCheck);
    Extend(s, [StartCheck] + [StartCheck], Create);
    Extend(s, [StartCheck] + [StartCheck] + [Create], Create);
    var t := Exec(s, [StartCheck] + [StartCheck]).value;
    CreateAddsOne(t);
    CreateAddsOne(Next(t, Create));
  }

  /** The state reached by one successful start. */
  lemma Launched(enabled: bool, interval: u32)
    ensures Exec(Initial(enabled, interval), [StartCheck] + [Create])
         == Some(Sys(Control(enabled, interval, false, false), [Created], 0))
  {
    var s := Initial(enabled, interval);
    Extend(s, [], StartCheck);
    assert [] + [StartCheck] == [StartCheck];
    Extend(s, [StartCheck], Create);
    assert [] + [Created] == [Created];
  }

  /** From the initial state, a stop right after a start is lost, and the thread enters
      its loop with shutdown not flagged. */
  lemma StopAfterStartIsLost(enabled: bool, interval: u32)
    ensures Exec(Initial(enabled, interval), [StartCheck] + [Create] + [StopRequest(0)] + [ThreadStep(0)])
         == Some(Sys(Control(enabled, interval, true, false), [Top], 0))
  {
    var s := Initial(enabled, interval);
    Launched(enabled, interval);
    Extend(s, [StartCheck] + [Create], StopRequest(0));
    Extend(s, [StartCheck] + [Create] + [StopRequest(0)], ThreadStep(0));
    assert [Created][0 := Top] == [Top];
  }

  /** From the initial state, a stop can find the thread collecting, so that it leaves
      only after a timeout. */
  lemma StopCanFindCollecting(interval: u32)
    ensures var acts := [StartCheck] + [Create] + [ThreadStep(0)] + [ThreadStep(0)];
            var s := Initial(true, interval);
            && Exec(s, acts) == Some(Sys(Control(true, interval, true, false), [Collecting(interval)], 0))
            && SingleInv(Exec(s, acts).value) && Enabled(Exec(s, acts).value, StopRequest(0))
  {
    var s := Initial(true, interval);
    Launched(true, interval);
    Extend(s, [StartCheck] + [Create], ThreadStep(0));
    assert [Created][0 := Top] == [Top];
    Extend(s, [StartCheck] + [Create] + [ThreadStep(0)], ThreadStep(0));
    assert [Top][0 := Collecting(interval)] == [Collecting(interval)];
    assert [Collecting(interval)][..0] == [];
  }
}
