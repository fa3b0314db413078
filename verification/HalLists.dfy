/** The LLID list and the CPE table: blocks the HAL allocates and the data context
    owns, replaces on every refresh and frees at the end. */
module HalLists {
  import opened CText

  // ------------------------------------------------------------ the memory ledger

  /** What happens to HAL-allocated blocks; every allocation has a new identity. */
  datatype MemEvent = Alloc(id: nat) | Free(id: nat) | Access(id: nat)

  /** The blocks ever allocated and those not yet freed; Broken after a double
      allocation or free, or an access to a block that is not live. */
  datatype Ledger = Ledger(seen: set<nat>, live: set<nat>) | Broken

  function Book(l: Ledger, e: MemEvent): Ledger
  {
    match l
    case Broken => Broken
    case Ledger(seen, live) =>
      match e
      case Alloc(id) => if id in seen then Broken else Ledger(seen + {id}, live + {id})
      case Free(id) => if id in live then Ledger(seen, live - {id}) else Broken
      case Access(id) => if id in live then l else Broken
  }

  function Audit(log: seq<MemEvent>): Ledger
  {
    if log == [] then Ledger({}, {}) else Book(Audit(log[..|log| - 1]), log[|log| - 1])
  }

  /** A sound log allocates no block twice, frees a block at most once and only
      after its allocation, and accesses it only in between. */
  lemma {:induction false} SoundLog(log: seq<MemEvent>, id: nat)
    requires Audit(log).Ledger?
    ensures multiset(log)[Alloc(id)] == if id in Audit(log).seen then 1 else 0
    ensures multiset(log)[Free(id)] == if id in Audit(log).seen && id !in Audit(log).live then 1 else 0
    ensures Audit(log).live <= Audit(log).seen
    ensures forall k | 0 <= k < |log| && log[k] == Access(id) :: Alloc(id) in log[..k] && Free(id) !in log[..k]
  {
    if log != [] {
      var n := |log| - 1;
      var front := log[..n];
      SoundLog(front, id);
      assert log == front + [log[n]];
      forall k | 0 <= k < |log| && log[k] == Access(id)
        ensures Alloc(id) in log[..k] && Free(id) !in log[..k]
      {
        if k < n {
          assert front[k] == Access(id) && front[..k] == log[..k];
        } else {
          assert multiset(front)[Alloc(id)] == 1 && multiset(front)[Free(id)] == 0;
          assert Alloc(id) in multiset(front) && Free(id) !in multiset(front);
        }
      }
    }
  }

  class Heap {
    var next: nat
    var log: seq<MemEvent>

    /** The log is sound and exactly the given blocks are live. */
    ghost predicate Sound(live: set<nat>)
      reads this
    {
      && Audit(log).Ledger? && Audit(log).live == live <= Audit(log).seen
      && forall id | id in Audit(log).seen :: id < next
    }

    constructor ()
      ensures Sound({}) && log == []
    {
      next, log := 0, [];
    }

    method Allocate(ghost live: set<nat>) returns (id: nat)
      requires Sound(live)
      modifies this
      ensures id !in old(Audit(log).seen) && Sound(live + {id})
      ensures log == old(log) + [Alloc(id)]
    {
      id := next;
      log := log + [Alloc(id)];
      next := next + 1;
    }

    method Release(id: nat, ghost live: set<nat>)
      requires Sound(live) && id in live
      modifies this
      ensures Sound(live - {id})
      ensures Audit(log).seen == old(Audit(log).seen)
      ensures log == old(log) + [Free(id)]
    {
      log := log + [Free(id)];
    }

    method Touch(id: nat, ghost live: set<nat>)
      requires Sound(live) && id in live
      modifies this
      ensures Sound(live)
      ensures log == old(log) + [Access(id)]
    {
      log := log + [Access(id)];
    }
  }

  // ------------------------------------------------------------ one owned list

  /** The HAL's answer: failure, which leaves the list structure as it was, or the
      two counts (static and dynamic entries; the LLID list uses one) and the
      entries, in a newly allocated block unless the HAL leaves the pointer null. */
  datatype Answer<E> = Failure | Success(first: u32, second: u32, entries: Option<seq<E>>)

  /** The HAL's contract: an allocated block has as many entries as the counts say. */
  predicate Truthful<E>(a: Answer<E>)
  {
    a.Success? && a.entries.Some? ==> |a.entries.value| == Wrap32(a.first + a.second)
  }

  /** The list as readers see it: counts and, when not null, the entries. */
  datatype View<E> = View(first: u32, second: u32, entries: Option<seq<E>>)

  function Total<E>(v: View<E>): u32 { Wrap32(v.first + v.second) }

  /** A refresh drops the old block and its counts before asking the HAL. */
  function Refreshed<E>(v: View<E>, a: Answer<E>): View<E>
  {
    match a
    case Failure => if v.entries.Some? then View(0, 0, None) else v
    case Success(first, second, entries) => View(first, second, entries)
  }

  function EntryAt<E>(v: View<E>, i: nat): Option<E>
  {
    if v.entries.Some? && i < Total(v) && i < |v.entries.value| then Some(v.entries.value[i]) else None
  }

  /** What releasing and obtaining a block, if there is one, adds to the log. */
  function Frees(block: Option<nat>): seq<MemEvent> { if block.Some? then [Free(block.value)] else [] }

  function Allocs(block: Option<nat>): seq<MemEvent> { if block.Some? then [Alloc(block.value)] else [] }

  class List<E> {
    const heap: Heap
    var block: Option<nat>
    var entries: seq<E>       // the contents of the block, when there is one
    var first: u32
    var second: u32

    /** A non-null list has exactly as many entries as its counts say. */
    ghost predicate Valid()
      reads this
    {
      block.Some? ==> |entries| == Wrap32(first + second)
    }

    ghost function Blocks(): set<nat>
      reads this
    {
      if block.Some? then {block.value} else {}
    }

    function Contents(): View<E>
      reads this
    {
      View(first, second, if block.Some? then Some(entries) else None)
    }

    constructor (heap: Heap)
      ensures this.heap == heap && Valid() && Blocks() == {}
      ensures Contents() == View(0, 0, None)
    {
      this.heap := heap;
      block, entries, first, second := None, [], 0, 0;
    }

    /** The heap's live blocks are ours and those of other lists. */
    ghost predicate Owning(others: set<nat>)
      reads this, heap
    {
      Valid() && Blocks() !! others && heap.Sound(Blocks() + others)
    }

    /** Releases the block, if any, and resets the counts with it. */
    method Drop(ghost others: set<nat>)
      requires Owning(others)
      modifies this, heap
      ensures Valid() && block.None? && heap.Sound(others)
      ensures Contents() == if old(block).Some? then View(0, 0, None) else old(Contents())
      ensures heap.log == old(heap.log) + Frees(old(block))
    {
      if block.Some? {
        heap.Release(block.value, Blocks() + others);
        block, entries, first, second := None, [], 0, 0;
      }
      assert old(Blocks()) + others - old(Blocks()) == others;
    }

    /** Takes over a block the HAL has just allocated. */
    method Adopt(es: seq<E>, ghost others: set<nat>)
      requires block.None? && heap.Sound(others) && |es| == Wrap32(first + second)
      modifies this`block, this`entries, heap
      ensures Owning(others) && block.Some? && entries == es
      ensures heap.log == old(heap.log) + Allocs(block)
    {
      var id := heap.Allocate(others);
      block, entries := Some(id), es;
      assert Blocks() + others == others + {id};
    }

    /** Replaces the list by what the HAL delivers, releasing the old block first. */
    method Refresh(a: Answer<E>, ghost others: set<nat>) returns (ok: bool)
      requires Owning(others) && Truthful(a)
      modifies this, heap
      ensures Owning(others)
      ensures Contents() == Refreshed(old(Contents()), a)
      ensures a.Success? ==> Contents() == View(a.first, a.second, a.entries)
      ensures a.Failure? ==> block.None?
      ensures a.Failure? && old(block).Some? ==> first == 0 && second == 0
      ensures a.Failure? && old(block).None? ==> Contents() == old(Contents())
      ensures ok <==> a.Success?
      ensures heap.log == old(heap.log) + Frees(old(block)) + Allocs(block)
    {
      Drop(others);
      assert Blocks() + others == others;
      match a {
        case Failure => ok := false;
        case Success(f, s, es) =>
          first, second := f, s;
          if es.Some? { Adopt(es.value, others); }
          ok := true;
      }
    }

    /** The index accessor succeeds exactly when the list is non-null and the index
        is below the count, and returns that entry. */
    method AtIndex(i: u32, ghost others: set<nat>) returns (r: Option<E>)
      requires Owning(others)
      modifies heap
      ensures Owning(others)
      ensures r.Some? <==> Contents().entries.Some? && i < Total(Contents())
      ensures r.Some? ==> r.value == Contents().entries.value[i]
      ensures r == EntryAt(Contents(), i)
      ensures heap.log == old(heap.log) + if r.Some? then [Access(block.value)] else []
    {
      if i >= Wrap32(first + second) || block.None? { return None; }
      heap.Touch(block.value, Blocks() + others);
      r := Some(entries[i]);
    }

    /** Destruction frees the block, if any. */
    method Destroy(ghost others: set<nat>)
      requires Owning(others)
      modifies heap
      ensures heap.Sound(others)
      ensures heap.log == old(heap.log) + Frees(block)
    {
      if block.Some? { heap.Release(block.value, Blocks() + others); }
      assert Blocks() + others - Blocks() == others;
    }
  }

  // ------------------------------------------------------------ whole life of the context

  datatype Op<L, C> =
    | RefreshLlid(llid: Answer<L>) | RefreshCpe(cpe: Answer<C>)
    | ReadLlid(i: u32) | ReadCpe(i: u32)

  predicate TruthfulOp<L, C>(op: Op<L, C>)
  {
    match op
    case RefreshLlid(a) => Truthful(a)
    case RefreshCpe(a) => Truthful(a)
    case _ => true
  }

  /** What readers see of both lists. */
  datatype Views<L, C> = Views(llid: View<L>, cpe: View<C>)

  function AfterOp<L, C>(v: Views<L, C>, op: Op<L, C>): Views<L, C>
  {
    match op
    case RefreshLlid(a) => v.(llid := Refreshed(v.llid, a))
    case RefreshCpe(a) => v.(cpe := Refreshed(v.cpe, a))
    case _ => v
  }

  function AfterOps<L, C>(ops: seq<Op<L, C>>): Views<L, C>
  {
    if ops == [] then Views(View(0, 0, None), View(0, 0, None))
    else AfterOp(AfterOps(ops[..|ops| - 1]), ops[|ops| - 1])
  }

  // The kinds of memory events a life must log, in order, in terms of its operations.

  datatype Kind = Allocating | Freeing | Accessing

  function KindOf(e: MemEvent): Kind { if e.Alloc? then Allocating else if e.Free? then Freeing else Accessing }

  function Kinds(log: seq<MemEvent>): (kinds: seq<Kind>)
    ensures |kinds| == |log|
  {
    seq(|log|, i requires 0 <= i < |log| => KindOf(log[i]))
  }

  function If(b: bool, k: Kind): seq<Kind> { if b then [k] else [] }

  predicate Delivers<E>(a: Answer<E>) { a.Success? && a.entries.Some? }

  /** A refresh frees a non-null list first and then obtains what the HAL allocates. */
  function RefreshKinds<E>(v: View<E>, a: Answer<E>): seq<Kind>
  {
    If(v.entries.Some?, Freeing) + If(Delivers(a), Allocating)
  }

  function OpKinds<L, C>(v: Views<L, C>, op: Op<L, C>): seq<Kind>
  {
    match op
    case RefreshLlid(a) => RefreshKinds(v.llid, a)
    case RefreshCpe(a) => RefreshKinds(v.cpe, a)
    case ReadLlid(i) => If(EntryAt(v.llid, i).Some?, Accessing)
    case ReadCpe(i) => If(EntryAt(v.cpe, i).Some?, Accessing)
  }

  function OpsKinds<L, C>(ops: seq<Op<L, C>>): seq<Kind>
  {
    if ops == [] then []
    else OpsKinds(ops[..|ops| - 1]) + OpKinds(AfterOps(ops[..|ops| - 1]), ops[|ops| - 1])
  }

  function LifeKinds<L, C>(ops: seq<Op<L, C>>): seq<Kind>
  {
    var v := AfterOps(ops);
    OpsKinds(ops) + If(v.llid.entries.Some?, Freeing) + If(v.cpe.entries.Some?, Freeing)
  }

  function One(b: bool): nat { if b then 1 else 0 }

  function DeliveredBy<L, C>(op: Op<L, C>): nat
  {
    match op
    case RefreshLlid(a) => One(Delivers(a))
    case RefreshCpe(a) => One(Delivers(a))
    case _ => 0
  }

  function ReadBy<L, C>(v: Views<L, C>, op: Op<L, C>): nat
  {
    match op
    case ReadLlid(i) => One(EntryAt(v.llid, i).Some?)
    case ReadCpe(i) => One(EntryAt(v.cpe, i).Some?)
    case _ => 0
  }

  /** The refreshes that delivered a non-null list. */
  function Deliveries<L, C>(ops: seq<Op<L, C>>): nat
  {
    if ops == [] then 0 else Deliveries(ops[..|ops| - 1]) + DeliveredBy(ops[|ops| - 1])
  }

  /** The index reads that found an entry. */
  function SuccessfulReads<L, C>(ops: seq<Op<L, C>>): nat
  {
    if ops == [] then 0
    else SuccessfulReads(ops[..|ops| - 1]) + ReadBy(AfterOps(ops[..|ops| - 1]), ops[|ops| - 1])
  }

  function Count(kinds: seq<Kind>, k: Kind): nat
  {
    if kinds == [] then 0 else Count(kinds[..|kinds| - 1], k) + One(kinds[|kinds| - 1] == k)
  }

  function Held<L, C>(v: Views<L, C>): nat { One(v.llid.entries.Some?) + One(v.cpe.entries.Some?) }

  lemma CountSum(xs: seq<Kind>, b: bool, y: Kind, k: Kind)
    ensures Count(xs + If(b, y), k) == Count(xs, k) + One(b && y == k)
  {
    if b {
      assert (xs + [y])[..|xs|] == xs;
    } else {
      assert xs + [] == xs;
    }
  }

  lemma CountRefresh<E>(xs: seq<Kind>, v: View<E>, a: Answer<E>, k: Kind)
    ensures Count(xs + RefreshKinds(v, a), k) ==
            Count(xs, k) + One(v.entries.Some? && Freeing == k) + One(Delivers(a) && Allocating == k)
  {
    CountSum(xs, v.entries.Some?, Freeing, k);
    CountSum(xs + If(v.entries.Some?, Freeing), Delivers(a), Allocating, k);
    Associative(xs, If(v.entries.Some?, Freeing), If(Delivers(a), Allocating));
  }

  /** What the events of one operation add to the counts. */
  function Added<L, C>(v: Views<L, C>, op: Op<L, C>, k: Kind): int
  {
    match k
    case Allocating => DeliveredBy(op)
    case Accessing => ReadBy(v, op)
    case Freeing => Held(v) + DeliveredBy(op) - Held(AfterOp(v, op))
  }

  lemma CountOp<L, C>(xs: seq<Kind>, v: Views<L, C>, op: Op<L, C>, k: Kind)
    ensures Count(xs + OpKinds(v, op), k) == Count(xs, k) + Added(v, op, k)
  {
    match op
    case RefreshLlid(a) => CountRefresh(xs, v.llid, a, k);
    case RefreshCpe(a) => CountRefresh(xs, v.cpe, a, k);
    case ReadLlid(i) => CountSum(xs, EntryAt(v.llid, i).Some?, Accessing, k);
    case ReadCpe(i) => CountSum(xs, EntryAt(v.cpe, i).Some?, Accessing, k);
  }

  /** Before destruction, what was obtained and not freed are the lists still held. */
  lemma {:induction false} OpsKindsCounts<L, C>(ops: seq<Op<L, C>>)
    ensures Count(OpsKinds(ops), Allocating) == Deliveries(ops)
    ensures Count(OpsKinds(ops), Accessing) == SuccessfulReads(ops)
    ensures Count(OpsKinds(ops), Freeing) + Held(AfterOps(ops)) == Deliveries(ops)
  {
    if ops != [] {
      var front, op := ops[..|ops| - 1], ops[|ops| - 1];
      OpsKindsCounts(front);
      CountOp(OpsKinds(front), AfterOps(front), op, Allocating);
      CountOp(OpsKinds(front), AfterOps(front), op, Accessing);
      CountOp(OpsKinds(front), AfterOps(front), op, Freeing);
    }
  }

  lemma LifeKindsCounts<L, C>(ops: seq<Op<L, C>>)
    ensures Count(LifeKinds(ops), Allocating) == Count(LifeKinds(ops), Freeing) == Deliveries(ops)
    ensures Count(LifeKinds(ops), Accessing) == SuccessfulReads(ops)
  {
    var v := AfterOps(ops);
    OpsKindsCounts(ops);
    forall k: Kind
      ensures Count(LifeKinds(ops), k) == Count(OpsKinds(ops), k) + if k == Freeing then Held(v) else 0
    {
      CountSum(OpsKinds(ops), v.llid.entries.Some?, Freeing, k);
      CountSum(OpsKinds(ops) + If(v.llid.entries.Some?, Freeing), v.cpe.entries.Some?, Freeing, k);
    }
  }

  lemma RefreshLogged(log: seq<MemEvent>, before: Option<nat>, after: Option<nat>)
    ensures Kinds(log + Frees(before) + Allocs(after))
         == Kinds(log) + (If(before.Some?, Freeing) + If(after.Some?, Allocating))
  {
  }

  /** Two lists over one heap, which tracks exactly their blocks. */
  ghost predicate Together<L, C>(heap: Heap, llid: List<L>, cpe: List<C>)
    reads heap, llid, cpe
  {
    && llid.heap == heap == cpe.heap && llid as object != cpe
    && llid.Owning(cpe.Blocks()) && cpe.Owning(llid.Blocks())
  }

  ghost function Seen<L, C>(llid: List<L>, cpe: List<C>): Views<L, C>
    reads llid, cpe
  {
    Views(llid.Contents(), cpe.Contents())
  }

  /** Refreshes one list beside the other. */
  method RefreshOne<E, F>(list: List<E>, other: List<F>, a: Answer<E>)
    requires list.heap == other.heap && list as object != other
    requires list.Owning(other.Blocks()) && other.Owning(list.Blocks()) && Truthful(a)
    modifies list, list.heap
    ensures list.Owning(other.Blocks()) && other.Owning(list.Blocks())
    ensures list.Contents() == Refreshed(old(list.Contents()), a)
    ensures Kinds(list.heap.log) == old(Kinds(list.heap.log)) + RefreshKinds(old(list.Contents()), a)
  {
    var _ := list.Refresh(a, other.Blocks());
    RefreshLogged(old(list.heap.log), old(list.block), list.block);
    assert list.Blocks() + other.Blocks() == other.Blocks() + list.Blocks();
  }

  /** Reads one entry of a list beside the other. */
  method ReadOne<E, F>(list: List<E>, other: List<F>, i: u32)
    requires list.heap == other.heap && list as object != other
    requires list.Owning(other.Blocks()) && other.Owning(list.Blocks())
    modifies list.heap
    ensures list.Owning(other.Blocks()) && other.Owning(list.Blocks())
    ensures Kinds(list.heap.log) == old(Kinds(list.heap.log)) + If(EntryAt(list.Contents(), i).Some?, Accessing)
  {
    var _ := list.AtIndex(i, other.Blocks());
    assert list.Blocks() + other.Blocks() == other.Blocks() + list.Blocks();
  }

  method Perform<L, C>(heap: Heap, llid: List<L>, cpe: List<C>, op: Op<L, C>)
    requires Together(heap, llid, cpe) && TruthfulOp(op)
    modifies heap, llid, cpe
    ensures Together(heap, llid, cpe)
    ensures Seen(llid, cpe) == AfterOp(old(Seen(llid, cpe)), op)
    ensures Kinds(heap.log) == old(Kinds(heap.log)) + OpKinds(old(Seen(llid, cpe)), op)
  {
    match op {
      case RefreshLlid(a) => RefreshOne(llid, cpe, a);
      case RefreshCpe(a) => RefreshOne(cpe, llid, a);
      case ReadLlid(i) => ReadOne(llid, cpe, i);
      case ReadCpe(i) => ReadOne(cpe, llid, i);
    }
  }

  /** Destroys both lists. */
  method DestroyBoth<L, C>(heap: Heap, llid: List<L>, cpe: List<C>)
    requires Together(heap, llid, cpe)
    modifies heap
    ensures heap.Sound({})
    ensures heap.log == old(heap.log) + Frees(llid.block) + Frees(cpe.block)
  {
    llid.Destroy(cpe.Blocks());
    assert cpe.Blocks() + {} == cpe.Blocks();
    cpe.Destroy({});
  }

  lemma DestructionLogged(log: seq<MemEvent>, a: Option<nat>, b: Option<nat>)
    ensures Kinds(log + Frees(a) + Frees(b)) == Kinds(log) + If(a.Some?, Freeing) + If(b.Some?, Freeing)
  {
  }

  /** A data context lives through any refreshes and index reads and is destroyed.
      The log has one allocation per non-null delivery, one access per successful read
      and the frees where the lists are replaced or destroyed, in that order; and every
      block the HAL allocated has been freed exactly once, and none was accessed before
      its allocation or after its release. */
  method Lifetime<L, C>(ops: seq<Op<L, C>>) returns (log: seq<MemEvent>)
    requires forall i | 0 <= i < |ops| :: TruthfulOp(ops[i])
    ensures Kinds(log) == LifeKinds(ops)
    ensures Count(Kinds(log), Allocating) == Count(Kinds(log), Freeing) == Deliveries(ops)
    ensures Count(Kinds(log), Accessing) == SuccessfulReads(ops)
    ensures forall id :: multiset(log)[Alloc(id)] == multiset(log)[Free(id)] <= 1
    ensures forall id, k | 0 <= k < |log| && log[k] == Access(id) ::
              Alloc(id) in log[..k] && Free(id) !in log[..k]
  {
    var heap := new Heap();
    var llid := new List<L>(heap);
    var cpe := new List<C>(heap);
    for n := 0 to |ops|
      invariant fresh(llid) && fresh(cpe) && fresh(heap) && Together(heap, llid, cpe)
      invariant AfterOps(ops[..n]) == Seen(llid, cpe)
      invariant Kinds(heap.log) == OpsKinds(ops[..n])
    {
      Perform(heap, llid, cpe, ops[n]);
      assert ops[..n + 1][..n] == ops[..n];
    }
    assert ops[..|ops|] == ops;
    DestructionLogged(heap.log, llid.block, cpe.block);
    DestroyBoth(heap, llid, cpe);
    log := heap.log;
    LifeKindsCounts(ops);
    forall id
      ensures multiset(log)[Alloc(id)] == multiset(log)[Free(id)] <= 1
      ensures forall k | 0 <= k < |log| && log[k] == Access(id) :: Alloc(id) in log[..k] && Free(id) !in log[..k]
    {
      SoundLog(log, id);
    }
  }
}
