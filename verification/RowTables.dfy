/** The dynamic TR-181 tables (LLID, CPE and VEIP interface): row registration on
    demand, tolerant of failures, and clean-up. */
module RowTables {
  import opened CText

  const MAX_LLID_INSTANCES: nat := 64
  const MAX_CPE_INSTANCES: nat := 256
  const MAX_VEIP_INSTANCES: nat := 16
  const VEIP_NAME_SIZE: nat := 64

  /** Bookkeeping of one row; only VEIP rows use the name. */
  datatype Row = Row(instance: nat, name: string, registered: bool)

  const BLANK: Row := Row(0, "", false)

  /** One synchronisation: the list count, the entries that can be fetched by index
      (none when the list is null) and the bus's answer for each row asked for. */
  datatype Sync = Sync(count: nat, names: seq<string>, accepts: seq<bool>)

  /** The synchronisation finds row i present in the list and the bus takes it. */
  predicate Offers(s: Sync, i: nat)
  {
    i < s.count && i < |s.names| && i < |s.accepts| && s.accepts[i]
  }

  function SyncedRow(r: Row, i: nat, s: Sync): Row
  {
    if !r.registered && Offers(s, i) then Row(i + 1, Truncate(s.names[i], VEIP_NAME_SIZE), true) else r
  }

  function Synced(rows: seq<Row>, s: Sync): (rs: seq<Row>)
    ensures |rs| == |rows|
  {
    seq(|rows|, i requires 0 <= i < |rows| => SyncedRow(rows[i], i, s))
  }

  predicate HoldsInstance(rows: seq<Row>, k: nat) { 1 <= k <= |rows| && rows[k - 1].registered }

  /** The instance numbers of the registered rows. */
  function Instances(rows: seq<Row>): set<nat>
  {
    set k: nat | k <= |rows| && HoldsInstance(rows, k)
  }

  class Table {
    const rows: array<Row>
    var bus: set<nat>   // the instance numbers the bus holds

    /** The bus holds exactly the rows recorded as registered. */
    ghost predicate Valid()
      reads this, rows
    {
      && bus == Instances(rows[..])
      && forall i | 0 <= i < rows.Length :: rows[i].registered ==> rows[i].instance == i + 1
    }

    constructor (max: nat)
      ensures Valid() && fresh(rows)
      ensures rows[..] == seq(max, _ => BLANK) && bus == {}
    {
      rows := new Row[max](_ => BLANK);
      bus := {};
    }

    /** The bus call: a row it already holds must not be registered again. */
    method RegisterRow(instance: nat, accepted: bool) returns (ok: bool)
      requires instance !in bus
      modifies this`bus
      ensures ok == accepted
      ensures bus == old(bus) + if accepted then {instance} else {}
    {
      if accepted { bus := bus + {instance}; }
      ok := accepted;
    }

    /** Registers the missing rows of the current list; without a bus handle or a
        data context nothing happens and failure is reported. */
    method SyncRows(handle: bool, context: bool, s: Sync) returns (ok: bool)
      requires Valid()
      modifies this`bus, rows
      ensures Valid()
      ensures ok <==> handle && context
      ensures rows[..] == if ok then Synced(old(rows[..]), s) else old(rows[..])
      ensures forall i | 0 <= i < rows.Length && (!ok || old(rows[i]).registered) :: rows[i] == old(rows[i])
      ensures ok ==> forall i | 0 <= i < rows.Length && !old(rows[i]).registered ::
                (rows[i].registered <==> i < s.count && i < |s.names| && i < |s.accepts| && s.accepts[i])
    {
      if !handle || !context { return false; }
      var i := 0;
      while i < s.count && i < rows.Length
        invariant 0 <= i <= rows.Length
        invariant Valid()
        invariant forall j | 0 <= j < i :: rows[j] == SyncedRow(old(rows[j]), j, s)
        invariant forall j | i <= j < rows.Length :: rows[j] == old(rows[j])
      {
        if !rows[i].registered && i < |s.names| {
          assert i + 1 !in bus;
          var before := rows[..];
          var taken := RegisterRow(i + 1, i < |s.accepts| && s.accepts[i]);
          if taken {
            rows[i] := Row(i + 1, Truncate(s.names[i], VEIP_NAME_SIZE), true);
            assert rows[..] == before[i := rows[i]];
            assert Instances(rows[..]) == Instances(before) + {i + 1};
          }
        }
        i := i + 1;
      }
      assert rows[..] == Synced(old(rows[..]), s);
      ok := true;
    }

    /** Clean-up asks the bus for exactly the rows it holds; those it fails to
        remove are all that remain there. */
    method Cleanup(removed: seq<bool>)
      requires Valid()
      modifies this`bus, rows
      ensures Instances(rows[..]) == {}
      ensures bus == set k | k in old(bus) && !(k <= |removed| && k > 0 && removed[k - 1])
    {
      var i := 0;
      while i < rows.Length
        invariant 0 <= i <= rows.Length
        invariant forall j | 0 <= j < i :: !rows[j].registered
        invariant forall j | i <= j < rows.Length :: rows[j] == old(rows[j])
        invariant bus == set k | k in old(bus) && !(k <= i && k <= |removed| && k > 0 && removed[k - 1])
      {
        if rows[i].registered {
          assert i + 1 in old(bus);
          if i < |removed| && removed[i] { bus := bus - {i + 1}; }
          rows[i] := rows[i].(registered := false);
        } else {
          assert !old(rows[..])[i].registered;
          assert i + 1 !in old(bus);
        }
        i := i + 1;
      }
      assert forall j | 0 <= j < |rows[..]| :: !rows[..][j].registered;
    }
  }

  // ------------------------------------------------------------ whole runs

  function Run(rows: seq<Row>, syncs: seq<Sync>): (rs: seq<Row>)
    ensures |rs| == |rows|
  {
    if syncs == [] then rows else Synced(Run(rows, syncs[..|syncs| - 1]), syncs[|syncs| - 1])
  }

  function Blank(max: nat): seq<Row> { seq(max, _ => BLANK) }

  /** Some synchronisation of the run offered row i. */
  predicate Offered(syncs: seq<Sync>, i: nat) { exists k :: 0 <= k < |syncs| && Offers(syncs[k], i) }

  /** Call k is the first of the run to offer row i. */
  ghost predicate FirstOffer(syncs: seq<Sync>, i: nat, k: nat)
  {
    k < |syncs| && Offers(syncs[k], i) && forall j | 0 <= j < k :: !Offers(syncs[j], i)
  }

  /** Under any failures, a row is registered exactly when some synchronisation
      offered it, and it records the first one that did: a failed row is retried by
      every later synchronisation, a registered row is never touched again. */
  lemma {:induction false} RegisteredIffOffered(max: nat, syncs: seq<Sync>, i: nat)
    requires i < max
    ensures var r := Run(Blank(max), syncs)[i];
            && (r.registered <==> Offered(syncs, i))
            && (!r.registered ==> r == BLANK)
            && (forall k: nat | FirstOffer(syncs, i, k) ::
                  r == Row(i + 1, Truncate(syncs[k].names[i], VEIP_NAME_SIZE), true))
  {
    if syncs != [] {
      var n := |syncs| - 1;
      var front := syncs[..n];
      assert forall k | 0 <= k < n :: front[k] == syncs[k];
      RegisteredIffOffered(max, front, i);
      assert Run(Blank(max), syncs)[i] == SyncedRow(Run(Blank(max), front)[i], i, syncs[n]);
      forall k: nat | FirstOffer(syncs, i, k)
        ensures Run(Blank(max), syncs)[i] == Row(i + 1, Truncate(syncs[k].names[i], VEIP_NAME_SIZE), true)
      {
        if k < n { assert FirstOffer(front, i, k); }
      }
      OfferedEither(syncs, i);
    }
  }

  lemma OfferedEither(syncs: seq<Sync>, i: nat)
    requires syncs != []
    ensures Offered(syncs, i) <==> Offered(syncs[..|syncs| - 1], i) || Offers(syncs[|syncs| - 1], i)
  {
    assert forall k | 0 <= k < |syncs| - 1 :: syncs[..|syncs| - 1][k] == syncs[k];
  }

  function LargestCount(syncs: seq<Sync>): nat
  {
    if syncs == [] then 0
    else
      var m := LargestCount(syncs[..|syncs| - 1]);
      if syncs[|syncs| - 1].count > m then syncs[|syncs| - 1].count else m
  }

  /** Registered rows lie inside 1..min(largest count seen, table size) and only grow. */
  lemma {:induction false} RowsStayInRange(max: nat, syncs: seq<Sync>)
    ensures forall k | k in Instances(Run(Blank(max), syncs)) :: 1 <= k <= Min(LargestCount(syncs), max)
    ensures syncs != [] ==>
              Instances(Run(Blank(max), syncs[..|syncs| - 1])) <= Instances(Run(Blank(max), syncs))
  {
    if syncs != [] {
      var before := Run(Blank(max), syncs[..|syncs| - 1]);
      RowsStayInRange(max, syncs[..|syncs| - 1]);
      forall k | k in Instances(Run(Blank(max), syncs))
        ensures 1 <= k <= Min(LargestCount(syncs), max)
      {
        assert HoldsInstance(before, k) ==> k in Instances(before);
      }
    }
  }
}
