/** A lock discipline for threads that take mutexes in a fixed order, one of them
    recursive: a static check of code, and the proof that checked threads never
    block each other in a cycle. */
module Locking {
  import opened CText

  datatype Lock =
    | DataMutex | ControllerMutex
    | StatsMutex | OnuMutex | PollerMutex | EventMutex
    | QueueMutex | TelemetryMutex

  /** Only the data mutex is recursive; it is also the outermost. */
  function Rank(l: Lock): nat
  {
    match l
    case DataMutex => 0
    case ControllerMutex => 1
    case StatsMutex => 2
    case OnuMutex => 2
    case PollerMutex => 2
    case EventMutex => 2
    case QueueMutex => 3
    case TelemetryMutex => 4
  }

  const MAX_RANK: nat := 4

  /** The locking skeleton of code: everything but lock operations and uses of guarded
      data is left out, and every condition may go either way. */
  datatype Code =
    | Skip
    | Acquire(lock: Lock)
    | Release(lock: Lock)
    | Use(lock: Lock)        // touches data the lock guards
    | Then(first: Code, second: Code)
    | Either(left: Code, right: Code)
    | Repeat(body: Code)

  /** What a thread holds: the data mutex to some depth, any other lock once. */
  datatype Held = Held(depth: nat, others: set<Lock>)

  const NOTHING: Held := Held(0, {})

  predicate Holds(h: Held, l: Lock) { if l.DataMutex? then h.depth > 0 else l in h.others }

  /** Taking l respects the order: l ranks above everything held, or is the data
      mutex, held already. */
  predicate MayAcquire(h: Held, l: Lock)
  {
    if l.DataMutex? then h.depth > 0 || h.others == {}
    else l !in h.others && forall m | m in h.others :: Rank(m) < Rank(l)
  }

  function Acquired(h: Held, l: Lock): Held
  {
    if l.DataMutex? then h.(depth := h.depth + 1) else h.(others := h.others + {l})
  }

  function Released(h: Held, l: Lock): Held
    requires Holds(h, l)
  {
    if l.DataMutex? then h.(depth := h.depth - 1) else h.(others := h.others - {l})
  }

  /** The static check: what code started with h leaves held, provided every
      acquisition respects the order, every release matches, data is used only under
      its lock, both branches of a choice agree and a repeated body is neutral. */
  function Check(c: Code, h: Held): Option<Held>
  {
    match c
    case Skip => Some(h)
    case Acquire(l) => if MayAcquire(h, l) then Some(Acquired(h, l)) else None
    case Release(l) => if Holds(h, l) then Some(Released(h, l)) else None
    case Use(l) => if Holds(h, l) then Some(h) else None
    case Then(a, b) =>
      (match Check(a, h)
       case None => None
       case Some(g) => Check(b, g))
    case Either(a, b) => if Check(a, h) == Check(b, h) then Check(a, h) else None
    case Repeat(a) => if Check(a, h) == Some(h) then Some(h) else None
  }

  /** The places where code releases a lock. */
  function Releases(c: Code, l: Lock): nat
  {
    match c
    case Release(m) => if m == l then 1 else 0
    case Then(a, b) => Releases(a, l) + Releases(b, l)
    case Either(a, b) => Releases(a, l) + Releases(b, l)
    case Repeat(a) => Releases(a, l)
    case _ => 0
  }

  /** The check applied to a list of code to be executed in order. */
  function CheckAll(todo: seq<Code>, h: Held): Option<Held>
  {
    if todo == [] then Some(h)
    else
      match Check(todo[0], h)
      case None => None
      case Some(g) => CheckAll(todo[1..], g)
  }

  // ------------------------------------------------------------ execution

  datatype Thread = Thread(todo: seq<Code>, held: Held)

  type Threads = seq<Thread>

  /** The lock a thread is about to take. */
  predicate Wants(t: Thread, l: Lock) { t.todo != [] && t.todo[0] == Acquire(l) }

  /** Thread i is blocked by thread j, which holds the lock i is about to take. */
  predicate WaitsFor(s: Threads, i: nat, j: nat)
  {
    i < |s| && j < |s| && i != j && s[i].todo != [] && s[i].todo[0].Acquire? && Holds(s[j].held, s[i].todo[0].lock)
  }

  /** Thread i is unfinished and not blocked, neither by another thread nor by itself. */
  predicate CanStep(s: Threads, i: nat)
  {
    && i < |s| && s[i].todo != []
    && (s[i].todo[0].Acquire? ==>
          && (forall j | 0 <= j < |s| && j != i :: !Holds(s[j].held, s[i].todo[0].lock))
          && (s[i].todo[0].lock.DataMutex? || !Holds(s[i].held, s[i].todo[0].lock)))
  }

  /** One step of thread i; choice resolves conditions. */
  function Stepped(t: Thread, choice: bool): Thread
    requires t.todo != []
  {
    var rest := t.todo[1..];
    match t.todo[0]
    case Skip => Thread(rest, t.held)
    case Acquire(l) => Thread(rest, Acquired(t.held, l))
    case Release(l) => Thread(rest, if Holds(t.held, l) then Released(t.held, l) else t.held)
    case Use(_) => Thread(rest, t.held)
    case Then(a, b) => Thread([a, b] + rest, t.held)
    case Either(a, b) => Thread([if choice then a else b] + rest, t.held)
    case Repeat(a) => Thread(if choice then [a, Repeat(a)] + rest else rest, t.held)
  }

  /** A schedule: which thread steps and how its condition resolves. */
  function Exec(s: Threads, schedule: seq<(nat, bool)>): Option<Threads>
  {
    if schedule == [] then Some(s)
    else
      var (i, choice) := schedule[|schedule| - 1];
      match Exec(s, schedule[..|schedule| - 1])
      case None => None
      case Some(t) => if CanStep(t, i) then Some(t[i := Stepped(t[i], choice)]) else None
  }

  /** Every condition may go either way, and a repetition may end or go on at every turn. */
  lemma ChoicesAreFree(a: Code, b: Code, rest: seq<Code>, h: Held)
    ensures exists choice :: Stepped(Thread([Either(a, b)] + rest, h), choice) == Thread([a] + rest, h)
    ensures exists choice :: Stepped(Thread([Either(a, b)] + rest, h), choice) == Thread([b] + rest, h)
    ensures exists choice :: Stepped(Thread([Repeat(a)] + rest, h), choice) == Thread(rest, h)
    ensures exists choice :: Stepped(Thread([Repeat(a)] + rest, h), choice) == Thread([a, Repeat(a)] + rest, h)
  {
    assert ([Either(a, b)] + rest)[1..] == rest && ([Repeat(a)] + rest)[1..] == rest;
    assert Stepped(Thread([Either(a, b)] + rest, h), true) == Thread([a] + rest, h);
    assert Stepped(Thread([Either(a, b)] + rest, h), false) == Thread([b] + rest, h);
    assert Stepped(Thread([Repeat(a)] + rest, h), false) == Thread(rest, h);
    assert Stepped(Thread([Repeat(a)] + rest, h), true) == Thread([a, Repeat(a)] + rest, h);
  }

  // ------------------------------------------------------------ the invariant

  /** The rest of the thread's code passes the check and releases everything. */
  predicate Disciplined(t: Thread) { CheckAll(t.todo, t.held) == Some(NOTHING) }

  ghost predicate Exclusive(s: Threads)
  {
    forall i, j, l | 0 <= i < j < |s| :: !(Holds(s[i].held, l) && Holds(s[j].held, l))
  }

  ghost predicate Inv(s: Threads)
  {
    Exclusive(s) && forall i | 0 <= i < |s| :: Disciplined(s[i])
  }

  lemma CheckAllFront(a: Code, rest: seq<Code>, h: Held)
    ensures CheckAll([a] + rest, h) ==
            match Check(a, h)
            case None => None
            case Some(g) => CheckAll(rest, g)
  {
    assert ([a] + rest)[1..] == rest;
  }

  /** A step changes neither whether the rest passes the check nor what it leaves held. */
  lemma StepKeepsResult(t: Thread, choice: bool, g: Held)
    requires CheckAll(t.todo, t.held) == Some(g) && t.todo != []
    ensures CheckAll(Stepped(t, choice).todo, Stepped(t, choice).held) == Some(g)
  {
    var rest, h := t.todo[1..], t.held;
    match t.todo[0]
    case Then(a, b) =>
      assert [a, b] + rest == [a] + ([b] + rest);
      CheckAllFront(a, [b] + rest, h);
      CheckAllFront(b, rest, Check(a, h).value);
    case Either(a, b) => CheckAllFront(if choice then a else b, rest, h);
    case Repeat(a) =>
      assert [a, Repeat(a)] + rest == [a] + ([Repeat(a)] + rest);
      CheckAllFront(a, [Repeat(a)] + rest, h);
      CheckAllFront(Repeat(a), rest, h);
    case _ =>
  }

  lemma StepDisciplined(t: Thread, choice: bool)
    requires Disciplined(t) && t.todo != []
    ensures Disciplined(Stepped(t, choice))
  {
    StepKeepsResult(t, choice, NOTHING);
  }

  lemma StepHolds(t: Thread, choice: bool, l: Lock)
    requires t.todo != [] && Holds(Stepped(t, choice).held, l)
    ensures Holds(t.held, l) || t.todo[0] == Acquire(l)
  {
  }

  lemma InvStep(s: Threads, i: nat, choice: bool)
    requires Inv(s) && CanStep(s, i)
    ensures Inv(s[i := Stepped(s[i], choice)])
  {
    var t := s[i := Stepped(s[i], choice)];
    StepDisciplined(s[i], choice);
    forall j, k, l | 0 <= j < k < |t|
      ensures !(Holds(t[j].held, l) && Holds(t[k].held, l))
    {
      if Holds(t[i].held, l) { StepHolds(s[i], choice, l); }
    }
  }

  lemma {:induction false} InvExec(s: Threads, schedule: seq<(nat, bool)>)
    requires Inv(s) && Exec(s, schedule).Some?
    ensures Inv(Exec(s, schedule).value)
  {
    if schedule != [] {
      var n := |schedule| - 1;
      InvExec(s, schedule[..n]);
      InvStep(Exec(s, schedule[..n]).value, schedule[n].0, schedule[n].1);
    }
  }

  // ------------------------------------------------------------ what a run leaves held

  /** The check tells the truth about executions: whatever the other threads do and
      however its conditions resolve, a thread whose code is checked to leave g never
      releases a lock it does not hold nor touches data whose lock it does not hold, and
      holds g when it has finished. */
  lemma {:induction false} RunLeaves(s: Threads, schedule: seq<(nat, bool)>, i: nat, g: Held)
    requires i < |s| && CheckAll(s[i].todo, s[i].held) == Some(g) && Exec(s, schedule).Some?
    ensures i < |Exec(s, schedule).value|
    ensures var t := Exec(s, schedule).value[i];
            && CheckAll(t.todo, t.held) == Some(g)
            && (t.todo == [] ==> t.held == g)
            && (t.todo != [] && (t.todo[0].Release? || t.todo[0].Use?) ==> Holds(t.held, t.todo[0].lock))
  {
    if schedule != [] {
      var n := |schedule| - 1;
      RunLeaves(s, schedule[..n], i, g);
      var t := Exec(s, schedule[..n]).value;
      if schedule[n].0 == i { StepKeepsResult(t[i], schedule[n].1, g); }
    }
  }

  /** Thread i is about to touch data guarded by l. */
  predicate AboutToUse(s: Threads, i: nat, l: Lock) { i < |s| && s[i].todo != [] && s[i].todo[0] == Use(l) }

  lemma UserHolds(t: Thread, l: Lock)
    requires Disciplined(t) && t.todo != [] && t.todo[0] == Use(l)
    ensures Holds(t.held, l)
  {
  }

  /** No two threads that run checked code are ever about to touch the same lock's data. */
  lemma UsesAreExclusive(s: Threads, schedule: seq<(nat, bool)>, i: nat, j: nat, l: Lock)
    requires Inv(s) && Exec(s, schedule).Some? && i != j
    ensures !(AboutToUse(Exec(s, schedule).value, i, l) && AboutToUse(Exec(s, schedule).value, j, l))
  {
    InvExec(s, schedule);
    var t := Exec(s, schedule).value;
    if AboutToUse(t, i, l) { UserHolds(t[i], l); }
    if AboutToUse(t, j, l) { UserHolds(t[j], l); }
  }

  /** d is c with exactly one lock operation left out. */
  predicate DropsOne(c: Code, d: Code)
  {
    match c
    case Skip => false
    case Acquire(_) => d == Skip
    case Release(_) => d == Skip
    case Use(_) => false
    case Then(a, b) =>
      d.Then? && ((DropsOne(a, d.first) && d.second == b) || (d.first == a && DropsOne(b, d.second)))
    case Either(a, b) =>
      d.Either? && ((DropsOne(a, d.left) && d.right == b) || (d.left == a && DropsOne(b, d.right)))
    case Repeat(a) => d.Repeat? && DropsOne(a, d.body)
  }

  /** What code leaves held determines what it was started with. */
  lemma {:induction false} CheckInjective(c: Code, h: Held, k: Held)
    requires Check(c, h).Some? && Check(c, h) == Check(c, k)
    ensures h == k
  {
    match c
    case Skip =>
    case Acquire(l) =>
      if !l.DataMutex? { assert h.others == Acquired(h, l).others - {l} && k.others == Acquired(k, l).others - {l}; }
    case Release(l) =>
      if !l.DataMutex? { assert h.others == Released(h, l).others + {l} && k.others == Released(k, l).others + {l}; }
    case Use(l) =>
    case Then(a, b) =>
      CheckInjective(b, Check(a, h).value, Check(a, k).value);
      CheckInjective(a, h, k);
    case Either(a, b) => CheckInjective(a, h, k);
    case Repeat(a) =>
  }

  /** Code that lacks one of its lock operations, wherever it stands, never passes the
      check with the same result. */
  lemma {:induction false} DropIsCaught(c: Code, d: Code, h: Held)
    requires Check(c, h).Some? && DropsOne(c, d)
    ensures Check(d, h) != Check(c, h)
  {
    match c
    case Skip =>
    case Acquire(l) =>
    case Release(l) =>
    case Use(l) =>
    case Then(a, b) =>
      var g := Check(a, h).value;
      if DropsOne(a, d.first) && d.second == b {
        DropIsCaught(a, d.first, h);
        if Check(d, h) == Check(c, h) { CheckInjective(b, g, Check(d.first, h).value); }
      } else {
        DropIsCaught(b, d.second, g);
      }
    case Either(a, b) =>
      if DropsOne(a, d.left) && d.right == b {
        DropIsCaught(a, d.left, h);
      } else {
        DropIsCaught(b, d.right, h);
      }
    case Repeat(a) => DropIsCaught(a, d.body, h);
  }

  // ------------------------------------------------------------ no wait cycle, progress

  /** A disciplined thread never blocks on itself, and what it wants ranks above
      everything it holds unless it holds the wanted lock already. */
  lemma WantsAbove(t: Thread, l: Lock)
    requires Disciplined(t) && Wants(t, l)
    ensures MayAcquire(t.held, l)
  {
  }

  /** The rank of the lock a thread is about to take, if it is about to take one. */
  function WantedRank(s: Threads, i: nat): nat
  {
    if i < |s| && s[i].todo != [] && s[i].todo[0].Acquire? then Rank(s[i].todo[0].lock) else 0
  }

  /** Along a wait the wanted locks strictly rise in rank. */
  lemma WaitRises(s: Threads, i: nat, j: nat, k: nat)
    requires Inv(s) && WaitsFor(s, i, j) && WaitsFor(s, j, k)
    ensures WantedRank(s, i) < WantedRank(s, j)
  {
    var wanted, next := s[i].todo[0].lock, s[j].todo[0].lock;
    WantsAbove(s[j], next);
    assert Holds(s[j].held, wanted) && Holds(s[k].held, next);
    assert !Holds(s[j].held, next);
  }

  /** Every thread of the chain waits for the next one. */
  predicate WaitChain(s: Threads, chain: seq<nat>)
  {
    forall i | 0 <= i < |chain| - 1 :: WaitsFor(s, chain[i], chain[i + 1])
  }

  lemma {:induction false} ChainRises(s: Threads, chain: seq<nat>)
    requires Inv(s) && WaitChain(s, chain) && |chain| >= 3
    ensures WantedRank(s, chain[0]) < WantedRank(s, chain[|chain| - 2])
  {
    var n := |chain|;
    WaitRises(s, chain[n - 3], chain[n - 2], chain[n - 1]);
    if n > 3 {
      assert WaitChain(s, chain[..n - 1]);
      ChainRises(s, chain[..n - 1]);
    }
  }

  /** No reachable state has a wait cycle, whatever the number of threads. */
  lemma NoWaitCycle(s: Threads, schedule: seq<(nat, bool)>, chain: seq<nat>)
    requires Inv(s) && Exec(s, schedule).Some?
    requires WaitChain(Exec(s, schedule).value, chain) && |chain| >= 2
    ensures chain[0] != chain[|chain| - 1]
  {
    var t := Exec(s, schedule).value;
    InvExec(s, schedule);
    var n := |chain|;
    assert WaitsFor(t, chain[n - 2], chain[n - 1]);
    if chain[0] == chain[n - 1] {
      var round := chain + [chain[1]];
      assert WaitsFor(t, chain[0], chain[1]);
      assert WaitChain(t, round);
      ChainRises(t, round);
      assert false;
    }
  }

  /** Following the waits from any unfinished thread leads to one that can step. */
  lemma {:induction false} Unblocked(s: Threads, i: nat) returns (j: nat)
    requires Inv(s) && i < |s| && s[i].todo != []
    ensures CanStep(s, j)
    decreases if s[i].todo[0].Acquire? then MAX_RANK - Rank(s[i].todo[0].lock) else 0
  {
    if CanStep(s, i) { return i; }
    var l := s[i].todo[0].lock;
    WantsAbove(s[i], l);
    var k: nat :| k < |s| && k != i && Holds(s[k].held, l);
    assert s[k].todo != [];
    if CanStep(s, k) { return k; }
    var m := s[k].todo[0].lock;
    WantsAbove(s[k], m);
    j := Unblocked(s, k);
  }

  /** Threads that run checked code never deadlock: in every reachable state some
      thread can step unless all have finished. */
  lemma NeverDeadlocked(s: Threads, schedule: seq<(nat, bool)>)
    requires forall i | 0 <= i < |s| :: s[i].held == NOTHING && CheckAll(s[i].todo, NOTHING) == Some(NOTHING)
    requires Exec(s, schedule).Some?
    ensures var t := Exec(s, schedule).value;
            (forall i | 0 <= i < |t| :: t[i].todo == []) || exists i :: CanStep(t, i)
  {
    assert Inv(s);
    InvExec(s, schedule);
    var t := Exec(s, schedule).value;
    if i: nat :| i < |t| && t[i].todo != [] {
      var j := Unblocked(t, i);
    }
  }
}
