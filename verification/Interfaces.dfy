/** The interface list kept in the data context: update on an event, aggregation
    and lookup, and what the list is after any sequence of events. */
module Interfaces {
  import opened CText

  datatype LinkStatus = LinkUp | LinkDown

  datatype Info = Info(name: string, status: LinkStatus)

  /** EPON_HAL_MAX_INTERFACES and EPON_HAL_INTERFACE_NAME_LEN, left abstract. */
  datatype Limits = Limits(maxInterfaces: nat, nameLength: nat)

  // ------------------------------------------------------------ specification

  /** The position of the first entry whose name compares equal, or the list's length. */
  function Position(list: seq<Info>, name: string, n: nat): (k: nat)
    ensures k <= |list|
  {
    if list == [] || SameName(list[0].name, name, n) then 0 else 1 + Position(list[1..], name, n)
  }

  lemma {:induction false} PositionSpec(list: seq<Info>, name: string, n: nat)
    ensures var k := Position(list, name, n);
            && (k < |list| ==> SameName(list[k].name, name, n))
            && (forall j | 0 <= j < k :: !SameName(list[j].name, name, n))
  {
    if list != [] && !SameName(list[0].name, name, n) { PositionSpec(list[1..], name, n); }
  }

  lemma PositionIs(list: seq<Info>, name: string, n: nat, k: nat)
    requires k <= |list|
    requires k < |list| ==> SameName(list[k].name, name, n)
    requires forall j | 0 <= j < k :: !SameName(list[j].name, name, n)
    ensures Position(list, name, n) == k
  {
    PositionSpec(list, name, n);
    var p := Position(list, name, n);
    assert p < |list| ==> SameName(list[p].name, name, n);
  }

  /** A known name is overwritten in place, a new one appended while there is room. */
  function Updated(list: seq<Info>, lim: Limits, info: Info): seq<Info>
  {
    var k := Position(list, info.name, lim.nameLength);
    if k < |list| then list[k := info]
    else if |list| < lim.maxInterfaces then list + [info]
    else list
  }

  predicate AnyUp(list: seq<Info>) { exists i :: 0 <= i < |list| && list[i].status == LinkUp }

  function Lookup(list: seq<Info>, name: string, n: nat): Option<Info>
  {
    var k := Position(list, name, n);
    if k < |list| then Some(list[k]) else None
  }

  // ------------------------------------------------------------ the list in place

  class Table {
    const limits: Limits
    const slots: array<Info>
    var count: nat

    ghost predicate Valid()
      reads this
    {
      slots.Length == limits.maxInterfaces && count <= slots.Length
    }

    ghost function Entries(): seq<Info>
      requires Valid()
      reads this, slots
    {
      slots[..count]
    }

    constructor (limits: Limits)
      ensures Valid() && fresh(slots)
      ensures this.limits == limits && Entries() == []
    {
      this.limits := limits;
      slots := new Info[limits.maxInterfaces](_ => Info("", LinkDown));
      count := 0;
    }

    method Update(info: Info)
      requires Valid()
      modifies this`count, slots
      ensures Valid()
      ensures Entries() == Updated(old(Entries()), limits, info)
    {
      var found := false;
      var i := 0;
      while i < count
        invariant 0 <= i <= count && !found && Entries() == old(Entries()) && count == old(count)
        invariant forall j | 0 <= j < i :: !SameName(slots[j].name, info.name, limits.nameLength)
      {
        if SameName(slots[i].name, info.name, limits.nameLength) {
          PositionIs(Entries(), info.name, limits.nameLength, i);
          slots[i] := info;
          found := true;
          break;
        }
        i := i + 1;
      }
      if !found {
        PositionIs(Entries(), info.name, limits.nameLength, count);
        if count < limits.maxInterfaces {
          slots[count] := info;
          count := count + 1;
        }
      }
    }

    /** The HAL fills the list. */
    method Replace(list: seq<Info>)
      requires Valid() && |list| <= limits.maxInterfaces
      modifies this`count, slots
      ensures Valid() && Entries() == list
    {
      forall i | 0 <= i < |list| { slots[i] := list[i]; }
      count := |list|;
    }

    method HasAnyUp() returns (up: bool)
      requires Valid()
      ensures up == AnyUp(Entries())
    {
      var i := 0;
      while i < count
        invariant 0 <= i <= count
        invariant forall j | 0 <= j < i :: slots[j].status != LinkUp
      {
        if slots[i].status == LinkUp {
          assert Entries()[i].status == LinkUp;
          return true;
        }
        i := i + 1;
      }
      up := false;
    }

    method ByName(name: string) returns (r: Option<Info>)
      requires Valid()
      ensures r == Lookup(Entries(), name, limits.nameLength)
    {
      var i := 0;
      while i < count
        invariant 0 <= i <= count
        invariant forall j | 0 <= j < i :: !SameName(slots[j].name, name, limits.nameLength)
      {
        if SameName(slots[i].name, name, limits.nameLength) {
          PositionIs(Entries(), name, limits.nameLength, i);
          return Some(slots[i]);
        }
        i := i + 1;
      }
      PositionIs(Entries(), name, limits.nameLength, count);
      r := None;
    }

    method AtIndex(i: nat) returns (r: Option<Info>)
      requires Valid()
      ensures r.Some? <==> i < |Entries()|
      ensures r.Some? ==> r.value == Entries()[i]
    {
      if i >= count { return None; }
      r := Some(slots[i]);
    }
  }

  // ------------------------------------------------------------ any sequence of events

  function AfterEvents(lim: Limits, events: seq<Info>): seq<Info>
  {
    if events == [] then []
    else Updated(AfterEvents(lim, events[..|events| - 1]), lim, events[|events| - 1])
  }

  /** The distinct names of the events, in order of first appearance. */
  function FirstSeen(events: seq<Info>, n: nat): seq<string>
  {
    if events == [] then []
    else
      var seen := FirstSeen(events[..|events| - 1], n);
      var key := Key(events[|events| - 1].name, n);
      if key in seen then seen else seen + [key]
  }

  /** The last event carrying a name. */
  function Latest(events: seq<Info>, key: string, n: nat): (info: Info)
    requires key in FirstSeen(events, n)
    ensures Key(info.name, n) == key && info in events
  {
    var last := events[|events| - 1];
    if Key(last.name, n) == key then last else Latest(events[..|events| - 1], key, n)
  }

  /** The names the table has room for. */
  function Tracked(lim: Limits, events: seq<Info>): seq<string>
  {
    var seen := FirstSeen(events, lim.nameLength);
    seen[..Min(|seen|, lim.maxInterfaces)]
  }

  ghost predicate Distinct<T(!new)>(s: seq<T>) { forall i, j | 0 <= i < j < |s| :: s[i] != s[j] }

  lemma {:induction false} FirstSeenDistinct(events: seq<Info>, n: nat)
    ensures Distinct(FirstSeen(events, n))
  {
    if events != [] { FirstSeenDistinct(events[..|events| - 1], n); }
  }

  /** From an empty table, any sequence of events leaves exactly the first
      maxInterfaces distinct names in order of first appearance, each with its
      latest event; so names stay pairwise distinct. */
  lemma {:induction false} NormalForm(lim: Limits, events: seq<Info>)
    ensures var list := AfterEvents(lim, events);
            && |list| == |Tracked(lim, events)|
            && (forall i | 0 <= i < |list| ::
                  && Key(list[i].name, lim.nameLength) == Tracked(lim, events)[i]
                  && list[i] == Latest(events, Tracked(lim, events)[i], lim.nameLength))
    ensures Distinct(Tracked(lim, events))
    decreases |events|, 1
  {
    FirstSeenDistinct(events, lim.nameLength);
    if events != [] {
      NormalFormStep(lim, events);
    }
  }

  lemma {:induction false} NormalFormStep(lim: Limits, events: seq<Info>)
    requires events != []
    ensures var list := AfterEvents(lim, events);
            && |list| == |Tracked(lim, events)|
            && (forall i | 0 <= i < |list| ::
                  && Key(list[i].name, lim.nameLength) == Tracked(lim, events)[i]
                  && list[i] == Latest(events, Tracked(lim, events)[i], lim.nameLength))
    decreases |events|, 0
  {
    var n := lim.nameLength;
    var front, last := events[..|events| - 1], events[|events| - 1];
    NormalForm(lim, front);
    var list := AfterEvents(lim, front);
    var names := Tracked(lim, front);
    forall j | 0 <= j < |list|
      ensures SameName(list[j].name, last.name, n) <==> names[j] == Key(last.name, n)
    {
      SameNameIsSameKey(list[j].name, last.name, n);
    }
    PositionSpec(list, last.name, n);
    var k := Position(list, last.name, n);
    var seen := FirstSeen(front, n);
    if Key(last.name, n) in seen && Key(last.name, n) !in names {
      assert |names| == lim.maxInterfaces;
    }
  }

  /** The aggregate is up exactly when the latest event of some tracked name is up. */
  lemma AggregateIsSomeTrackedUp(lim: Limits, events: seq<Info>)
    ensures AnyUp(AfterEvents(lim, events)) <==>
            exists i | 0 <= i < |Tracked(lim, events)| ::
              Latest(events, Tracked(lim, events)[i], lim.nameLength).status == LinkUp
  {
    NormalForm(lim, events);
    var list := AfterEvents(lim, events);
    if AnyUp(list) {
      var i :| 0 <= i < |list| && list[i].status == LinkUp;
      assert Latest(events, Tracked(lim, events)[i], lim.nameLength).status == LinkUp;
    }
  }

  /** Events never move, rename or drop an entry: the names of the list only grow at its end. */
  lemma NamesAreStable(lim: Limits, events: seq<Info>, more: seq<Info>, i: nat)
    requires i < |AfterEvents(lim, events)|
    ensures i < |AfterEvents(lim, events + more)|
    ensures Key(AfterEvents(lim, events + more)[i].name, lim.nameLength)
         == Key(AfterEvents(lim, events)[i].name, lim.nameLength)
  {
    NormalForm(lim, events);
    NormalForm(lim, events + more);
    FirstSeenGrows(events, more, lim.nameLength);
  }

  lemma {:induction false} FirstSeenGrows(events: seq<Info>, more: seq<Info>, n: nat)
    ensures FirstSeen(events, n) <= FirstSeen(events + more, n)
  {
    if more == [] {
      assert events + more == events;
    } else {
      var front := more[..|more| - 1];
      FirstSeenGrows(events, front, n);
      assert (events + more)[..|events + more| - 1] == events + front;
    }
  }
}
