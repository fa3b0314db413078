/** Status updates to the WAN manager over the bus: discovery of its interface
    index, the virtual-interface search and the PHY status write. */
module WanManager {
  import opened CText

  const BASE_INTERFACE: string := "Device.Optical.Interface.1"

  /** One parameter read over the bus: an error, a value without text, or text. */
  datatype Reading = Unreadable | NoText | Content(text: string)

  /** What the bus answers during one call.  Row i of a table is element i - 1;
      rows beyond the sequence cannot be read. */
  datatype View = View(
    handle: bool,
    interfaceCount: Option<u32>, baseInterfaces: seq<Reading>,
    virtualCount: Option<u32>, virtualNames: seq<Reading>,
    writable: bool)

  /** The index cached here (0 while undiscovered) and the parameters written so far. */
  datatype State = State(index: nat, phy: map<nat, bool>, enable: map<(nat, nat), bool>)

  const INITIAL: State := State(0, map[], map[])

  function SignedInt(x: u32): int { if x < TWO31 then x else x - TWO32 }

  function Row(rows: seq<Reading>, i: int): Reading
  {
    if 1 <= i <= |rows| then rows[i - 1] else Unreadable
  }

  /** Row i is the first readable row with the given text among rows 1..n. */
  predicate IsFirstMatch(rows: seq<Reading>, n: int, text: string, i: int)
  {
    && 1 <= i <= n
    && Row(rows, i) == Content(text)
    && forall j :: 1 <= j < i ==> Row(rows, j) != Content(text)
  }

  /** The first matching row at or after i, or 0. */
  function FirstMatch(rows: seq<Reading>, n: int, text: string, i: nat): nat
    decreases n - i
  {
    if i > n then 0
    else if Row(rows, i) == Content(text) then i
    else FirstMatch(rows, n, text, i + 1)
  }

  lemma {:induction false} FirstMatchSpec(rows: seq<Reading>, n: int, text: string, i: nat)
    requires 1 <= i && forall j | 1 <= j < i :: Row(rows, j) != Content(text)
    ensures var r := FirstMatch(rows, n, text, i);
            if r > 0 then IsFirstMatch(rows, n, text, r)
            else forall j | 1 <= j <= n :: Row(rows, j) != Content(text)
    decreases n - i
  {
    if i <= n && Row(rows, i) != Content(text) { FirstMatchSpec(rows, n, text, i + 1); }
  }

  /** FirstMatch finds row i exactly when i is the first match. */
  lemma FirstMatchIs(rows: seq<Reading>, n: int, text: string, i: int)
    requires IsFirstMatch(rows, n, text, i)
    ensures FirstMatch(rows, n, text, 1) == i
  {
    FirstMatchSpec(rows, n, text, 1);
    var r := FirstMatch(rows, n, text, 1);
    assert r > 0 ==> Row(rows, r) == Content(text);
  }

  // ------------------------------------------------------------ specification of the calls

  /** The index after a discovery attempt: the cached one, else the first readable match, else 0. */
  function Discovered(index: nat, v: View): nat
  {
    if index > 0 then index
    else if !v.handle || v.interfaceCount.None? then 0
    else FirstMatch(v.baseInterfaces, SignedInt(v.interfaceCount.value), BASE_INTERFACE, 1)
  }

  /** The virtual-interface row a call addresses, or 0. */
  function VirtualRow(name: string, v: View): nat
  {
    if v.virtualCount.None? then 0
    else FirstMatch(v.virtualNames, SignedInt(v.virtualCount.value), name, 1)
  }

  predicate PhyWritten(index: nat, v: View) { Discovered(index, v) > 0 && v.handle && v.writable }

  function AfterPhy(st: State, up: bool, v: View): State
  {
    var i := Discovered(st.index, v);
    if PhyWritten(st.index, v) then State(i, st.phy[i := up], st.enable) else st.(index := i)
  }

  predicate VirtualWritten(index: nat, name: string, v: View)
  {
    PhyWritten(index, v) && VirtualRow(name, v) > 0
  }

  function AfterVirtual(st: State, name: string, up: bool, v: View): State
  {
    var i := Discovered(st.index, v);
    if VirtualWritten(st.index, name, v) then State(i, st.phy, st.enable[(i, VirtualRow(name, v)) := up])
    else st.(index := i)
  }

  datatype Call = Phy(up: bool, view: View) | Virtual(name: string, up: bool, view: View)

  predicate Written(st: State, c: Call)
  {
    match c
    case Phy(_, v) => PhyWritten(st.index, v)
    case Virtual(name, _, v) => VirtualWritten(st.index, name, v)
  }

  // ------------------------------------------------------------ what a call does, from the view's fields

  /** Row i is the first of the counted rows that can be read and has the given text; a
      count beyond the range of a C int counts no row. */
  ghost predicate FirstRow(rows: seq<Reading>, count: Option<u32>, text: string, i: nat)
  {
    && count.Some? && count.value < TWO31 && 1 <= i <= count.value
    && i <= |rows| && rows[i - 1] == Content(text)
    && forall j | 0 <= j < i - 1 :: rows[j] != Content(text)
  }

  /** The EPON interface is known as row k: from before, or because this call finds it. */
  ghost predicate KnownAs(index: nat, v: View, k: nat)
  {
    if index > 0 then k == index
    else v.handle && FirstRow(v.baseInterfaces, v.interfaceCount, BASE_INTERFACE, k)
  }

  ghost predicate Known(index: nat, v: View) { exists k: nat :: KnownAs(index, v, k) }

  /** The virtual interface is row i. */
  ghost predicate NamedAs(v: View, name: string, i: nat) { FirstRow(v.virtualNames, v.virtualCount, name, i) }

  ghost predicate Named(v: View, name: string) { exists i: nat :: NamedAs(v, name, i) }

  /** The search for a text finds exactly the first row that has it. */
  lemma SearchFinds(rows: seq<Reading>, count: u32, text: string)
    ensures var r := FirstMatch(rows, SignedInt(count), text, 1);
            && (r > 0 ==> FirstRow(rows, Some(count), text, r))
            && (forall i: nat | FirstRow(rows, Some(count), text, i) :: r == i)
  {
    FirstMatchSpec(rows, SignedInt(count), text, 1);
    var r := FirstMatch(rows, SignedInt(count), text, 1);
    if r > 0 {
      forall j | 0 <= j < r - 1
        ensures rows[j] != Content(text)
      {
        assert Row(rows, j + 1) == rows[j];
      }
    }
    forall i: nat | FirstRow(rows, Some(count), text, i)
      ensures r == i
    {
      FirstMatchIs(rows, SignedInt(count), text, i);
    }
  }

  /** After any call the index is what the interface is known as, and 0 while it is not. */
  lemma IndexIsKnown(index: nat, v: View)
    ensures forall k: nat | KnownAs(index, v, k) :: Discovered(index, v) == k
    ensures !Known(index, v) ==> Discovered(index, v) == 0
    ensures Discovered(index, v) > 0 <==> Known(index, v)
  {
    if v.interfaceCount.Some? { SearchFinds(v.baseInterfaces, v.interfaceCount.value, BASE_INTERFACE); }
    if index > 0 {
      assert KnownAs(index, v, index);
    } else if Discovered(index, v) > 0 {
      assert KnownAs(index, v, Discovered(index, v));
    }
  }

  /** The PHY status is written exactly if the interface is known, the handle is there and
      the write is accepted, and then under that interface only. */
  lemma PhyEffect(st: State, up: bool, v: View)
    ensures Written(st, Phy(up, v)) <==> Known(st.index, v) && v.handle && v.writable
    ensures var after := AfterPhy(st, up, v);
            && after.enable == st.enable
            && (forall k: nat | KnownAs(st.index, v, k) ::
                  after.index == k && after.phy == if v.handle && v.writable then st.phy[k := up] else st.phy)
            && (!Known(st.index, v) ==> after == st)
  {
    IndexIsKnown(st.index, v);
  }

  /** An Enable is written exactly if the interface is known, whether from before or found
      by this call, some row has the name, the handle is there and the write is accepted;
      and then it is the Enable of that row of that interface only. */
  lemma VirtualEffect(st: State, name: string, up: bool, v: View)
    ensures Written(st, Virtual(name, up, v)) <==> Known(st.index, v) && Named(v, name) && v.handle && v.writable
    ensures var after := AfterVirtual(st, name, up, v);
            && after.phy == st.phy
            && (forall k: nat | KnownAs(st.index, v, k) :: after.index == k)
            && (forall k: nat, i: nat | KnownAs(st.index, v, k) && NamedAs(v, name, i) ::
                  after.enable == if v.handle && v.writable then st.enable[(k, i) := up] else st.enable)
            && (!Named(v, name) ==> after.enable == st.enable)
            && (!Known(st.index, v) ==> after == st)
  {
    IndexIsKnown(st.index, v);
    if v.virtualCount.Some? { SearchFinds(v.virtualNames, v.virtualCount.value, name); }
    if VirtualRow(name, v) > 0 { assert NamedAs(v, name, VirtualRow(name, v)); }
  }

  // ------------------------------------------------------------ the calls

  class Client {
    var index: nat
    var phy: map<nat, bool>
    var enable: map<(nat, nat), bool>

    function Contents(): State
      reads this
    {
      State(index, phy, enable)
    }

    constructor ()
      ensures Contents() == INITIAL
    {
      index, phy, enable := 0, map[], map[];
    }

    method Discover(v: View) returns (r: int)
      modifies this`index
      ensures index == Discovered(old(index), v)
      ensures r == if index > 0 then index else -1
      ensures forall k: nat | KnownAs(old(index), v, k) :: r == k
      ensures r < 0 <==> !Known(old(index), v)
    {
      IndexIsKnown(index, v);
      if index > 0 { return index; }
      if !v.handle { return -1; }
      if v.interfaceCount.None? { return -1; }
      var n := SignedInt(v.interfaceCount.value);
      var i := 1;
      while i <= n
        invariant 1 <= i
        invariant index == 0
        invariant forall j :: 1 <= j < i ==> Row(v.baseInterfaces, j) != Content(BASE_INTERFACE)
      {
        if Row(v.baseInterfaces, i) == Content(BASE_INTERFACE) {
          index := i;
          FirstMatchIs(v.baseInterfaces, n, BASE_INTERFACE, i);
          return i;
        }
        i := i + 1;
      }
      FirstMatchSpec(v.baseInterfaces, n, BASE_INTERFACE, 1);
      r := -1;
    }

    method NotifyPhy(up: bool, v: View) returns (ok: bool)
      modifies this
      ensures ok <==> Known(old(index), v) && v.handle && v.writable
      ensures ok <==> Written(old(Contents()), Phy(up, v))
      ensures Contents() == AfterPhy(old(Contents()), up, v)
    {
      PhyEffect(Contents(), up, v);
      var i := Discover(v);
      if i < 0 { return false; }
      if !v.handle { return false; }
      if !v.writable { return false; }
      phy := phy[i := up];
      ok := true;
    }

    method UpdateVirtual(name: string, up: bool, v: View) returns (ok: bool)
      modifies this
      ensures ok <==> Known(old(index), v) && Named(v, name) && v.handle && v.writable
      ensures ok <==> Written(old(Contents()), Virtual(name, up, v))
      ensures Contents() == AfterVirtual(old(Contents()), name, up, v)
    {
      VirtualEffect(Contents(), name, up, v);
      var k := Discover(v);
      if k < 0 { return false; }
      if !v.handle { return false; }
      if v.virtualCount.None? { return false; }
      var n := SignedInt(v.virtualCount.value);
      var i := 1;
      while i <= n
        invariant 1 <= i
        invariant Contents() == old(Contents()).(index := k)
        invariant forall j :: 1 <= j < i ==> Row(v.virtualNames, j) != Content(name)
      {
        if Row(v.virtualNames, i) == Content(name) {
          FirstMatchIs(v.virtualNames, n, name, i);
          if !v.writable { return false; }
          enable := enable[(k, i) := up];
          return true;
        }
        i := i + 1;
      }
      FirstMatchSpec(v.virtualNames, n, name, 1);
      ok := false;
    }
  }

  // ------------------------------------------------------------ whole runs

  function After(st: State, c: Call): State
  {
    match c
    case Phy(up, v) => AfterPhy(st, up, v)
    case Virtual(name, up, v) => AfterVirtual(st, name, up, v)
  }

  function Run(st: State, calls: seq<Call>): State
  {
    if calls == [] then st else After(Run(st, calls[..|calls| - 1]), calls[|calls| - 1])
  }

  /** The view in which row i is the first readable match among the counted rows. */
  predicate Shows(v: View, i: nat)
  {
    v.interfaceCount.Some? && IsFirstMatch(v.baseInterfaces, SignedInt(v.interfaceCount.value), BASE_INTERFACE, i)
  }

  lemma IndexStep(st: State, c: Call)
    ensures st.index > 0 ==> After(st, c).index == st.index
    ensures st.index == 0 && After(st, c).index > 0 ==> Shows(c.view, After(st, c).index)
  {
    if c.view.interfaceCount.Some? {
      FirstMatchSpec(c.view.baseInterfaces, SignedInt(c.view.interfaceCount.value), BASE_INTERFACE, 1);
    }
  }

  /** No index is known before call j, and one is after it. */
  predicate Discovers(calls: seq<Call>, j: nat)
  {
    j < |calls| && Run(INITIAL, calls[..j]).index == 0 < After(Run(INITIAL, calls[..j]), calls[j]).index
  }

  lemma {:induction false} IndexStays(calls: seq<Call>, k: nat)
    requires k <= |calls| && Run(INITIAL, calls[..k]).index > 0
    ensures Run(INITIAL, calls).index == Run(INITIAL, calls[..k]).index
  {
    if k == |calls| {
      assert calls[..k] == calls;
    } else {
      var front := calls[..|calls| - 1];
      assert front[..k] == calls[..k];
      IndexStays(front, k);
      IndexStep(Run(INITIAL, front), calls[|calls| - 1]);
    }
  }

  lemma {:induction false} IndexIsFound(calls: seq<Call>) returns (j: nat)
    requires Run(INITIAL, calls).index > 0
    ensures Discovers(calls, j) && Shows(calls[j].view, Run(INITIAL, calls).index)
  {
    var n := |calls| - 1;
    var front := calls[..n];
    IndexStep(Run(INITIAL, front), calls[n]);
    if Run(INITIAL, front).index > 0 {
      j := IndexIsFound(front);
      assert front[..j] == calls[..j];
    } else {
      j := n;
    }
  }

  /** Over any run the index is found once, as the first readable match of the
      view that found it, and never changes afterwards. */
  lemma IndexIsSticky(calls: seq<Call>, k: nat)
    requires k <= |calls|
    ensures var i := Run(INITIAL, calls[..k]).index;
            i > 0 ==> Run(INITIAL, calls).index == i
    ensures var i := Run(INITIAL, calls).index;
            i > 0 ==> exists j :: 0 <= j < |calls| && Discovers(calls, j) && Shows(calls[j].view, i)
  {
    if Run(INITIAL, calls[..k]).index > 0 { IndexStays(calls, k); }
    if Run(INITIAL, calls).index > 0 {
      var j := IndexIsFound(calls);
    }
  }

  /** Call k is a PHY call whose write succeeded, and no later one did. */
  ghost predicate IsLastPhyWritten(calls: seq<Call>, k: nat)
  {
    && k < |calls| && calls[k].Phy? && Written(Run(INITIAL, calls[..k]), calls[k])
    && forall j | k < j < |calls| && calls[j].Phy? :: !Written(Run(INITIAL, calls[..j]), calls[j])
  }

  /** All writes go to the discovered index. */
  ghost predicate OneIndex(st: State)
  {
    && (forall i | i in st.phy :: i == st.index && i > 0)
    && (forall i | i in st.enable :: i.0 == st.index && i.0 > 0)
  }

  lemma OneIndexStep(st: State, c: Call)
    requires OneIndex(st)
    ensures OneIndex(After(st, c))
    ensures c.Virtual? || !Written(st, c) ==> After(st, c).phy == st.phy
    ensures st.phy != map[] ==> After(st, c).index == st.index
  {
    if st.phy != map[] {
      var i :| i in st.phy;
    }
  }

  lemma {:induction false} WritesShareIndex(calls: seq<Call>)
    ensures OneIndex(Run(INITIAL, calls))
  {
    if calls != [] {
      WritesShareIndex(calls[..|calls| - 1]);
      OneIndexStep(Run(INITIAL, calls[..|calls| - 1]), calls[|calls| - 1]);
    }
  }

  /** Over any run with arbitrary bus failures, the WAN manager holds, under the
      discovered index, the value of the last PHY call that was written. */
  lemma {:induction false} PhyHoldsLastWritten(calls: seq<Call>, k: nat)
    requires IsLastPhyWritten(calls, k)
    ensures var st := Run(INITIAL, calls);
            st.phy.Keys == {st.index} && st.phy[st.index] == calls[k].up
  {
    var n := |calls| - 1;
    var front := calls[..n];
    WritesShareIndex(front);
    OneIndexStep(Run(INITIAL, front), calls[n]);
    if k < n {
      assert forall j | 0 <= j < n :: front[j] == calls[j] && front[..j] == calls[..j];
      assert IsLastPhyWritten(front, k);
      PhyHoldsLastWritten(front, k);
    } else {
      assert calls[..k] == front;
    }
  }

  /** While no PHY call has been written, nothing is held. */
  lemma {:induction false} PhyNeverWritten(calls: seq<Call>)
    requires forall k | 0 <= k < |calls| :: calls[k].Phy? ==> !Written(Run(INITIAL, calls[..k]), calls[k])
    ensures Run(INITIAL, calls).phy == map[]
  {
    if calls != [] {
      var n := |calls| - 1;
      var front := calls[..n];
      assert forall k | 0 <= k < n :: front[k] == calls[k] && front[..k] == calls[..k];
      PhyNeverWritten(front);
    }
  }

  /** A virtual-interface call writes the Enable of the first readable row with
      that name, under the discovered index, and nothing else. */
  lemma OnlyFirstMatchIsEnabled(st: State, name: string, up: bool, v: View)
    ensures var st' := AfterVirtual(st, name, up, v);
            && st'.phy == st.phy
            && (VirtualWritten(st.index, name, v) ==>
                  exists i :: && v.virtualCount.Some?
                    && IsFirstMatch(v.virtualNames, SignedInt(v.virtualCount.value), name, i)
                    && st'.enable == st.enable[(st'.index, i) := up])
            && (!VirtualWritten(st.index, name, v) ==> st'.enable == st.enable)
  {
    if VirtualWritten(st.index, name, v) {
      FirstMatchSpec(v.virtualNames, SignedInt(v.virtualCount.value), name, 1);
      assert IsFirstMatch(v.virtualNames, SignedInt(v.virtualCount.value), name, VirtualRow(name, v));
    }
  }
}
