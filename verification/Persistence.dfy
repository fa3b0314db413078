/** The persistent configuration: defaults, the validating load and the ordered,
    non-atomic save. */
module Persistence {
  import opened CText
  import opened Psm

  const KEY_DPOE := "dmsb.eponmanager.DpoeEnable"
  const KEY_TTL := "dmsb.eponmanager.CacheTtlSeconds"
  const KEY_ENABLED := "dmsb.eponmanager.StatsPollerEnabled"
  const KEY_INTERVAL := "dmsb.eponmanager.StatsPollerIntervalSeconds"

  /** The keys in the order a save writes them. */
  const KEYS: seq<string> := [KEY_TTL, KEY_DPOE, KEY_ENABLED, KEY_INTERVAL]

  datatype Values = Values(ttl: u32, dpoe: bool, enabled: bool, interval: u32)

  const DEFAULTS: Values := Values(30, false, false, 900)

  predicate ValidTtl(n: u32) { 1 <= n <= 300 }

  predicate ValidInterval(n: u32) { 60 <= n <= 3600 }

  predicate InRange(v: Values) { ValidTtl(v.ttl) && ValidInterval(v.interval) }

  /** The text stored for the k-th key. */
  function Printed(v: Values, k: nat): string
    requires k < 4
  {
    match k
    case 0 => Decimal(v.ttl)
    case 1 => BoolText(v.dpoe)
    case 2 => BoolText(v.enabled)
    case _ => Decimal(v.interval)
  }

  // ------------------------------------------------------------ specification

  /** A save: the k-th key is written only if all earlier writes succeeded. */
  datatype Save = Save(values: Values, outcomes: seq<Outcome>)

  predicate Proper(s: Save) { |s.outcomes| == 4 }

  /** The save gets as far as the k-th write. */
  predicate Reaches(s: Save, k: nat)
    requires Proper(s) && k <= 4
  {
    forall j | 0 <= j < k :: s.outcomes[j].Stored?
  }

  /** The store after the first n writes. */
  function SavedUpTo(st: Store, s: Save, n: nat): Store
    requires Proper(s) && n <= 4
  {
    if n == 0 then st
    else
      var before := SavedUpTo(st, s, n - 1);
      if Reaches(s, n - 1) then AfterWrite(before, KEYS[n - 1], Printed(s.values, n - 1), s.outcomes[n - 1]) else before
  }

  /** The store after a save, complete or cut short. */
  function AfterSave(st: Store, s: Save): Store
    requires Proper(s)
  {
    SavedUpTo(st, s, |s.outcomes|)
  }

  /** The bus side of a load: which keys can be read, and atoi's unpromised results. */
  datatype Access = Access(readable: seq<bool>, wildTtl: u32, wildInterval: u32)

  function LoadedUint(st: Store, key: string, readable: bool, wild: u32, current: u32, lo: u32, hi: u32): u32
  {
    match Fetched(st, key, UINT_BUFFER, readable)
    case None => current
    case Some(s) => if lo <= ToUint(s, wild) <= hi then ToUint(s, wild) else current
  }

  function LoadedBool(st: Store, key: string, readable: bool, current: bool): bool
  {
    match Fetched(st, key, BOOL_BUFFER, readable)
    case None => current
    case Some(s) => ToBool(s)
  }

  function Loaded(st: Store, a: Access, v: Values): Values
    requires |a.readable| == 4
  {
    Values(
      LoadedUint(st, KEY_TTL, a.readable[0], a.wildTtl, v.ttl, 1, 300),
      LoadedBool(st, KEY_DPOE, a.readable[1], v.dpoe),
      LoadedBool(st, KEY_ENABLED, a.readable[2], v.enabled),
      LoadedUint(st, KEY_INTERVAL, a.readable[3], a.wildInterval, v.interval, 60, 3600))
  }

  // ------------------------------------------------------------ the operations

  /** The key is missing or its read fails. */
  predicate Unread(st: Store, key: string, readable: bool) { key !in st || !readable }

  class Config {
    var ttl: u32
    var dpoe: bool
    var enabled: bool
    var interval: u32

    function Contents(): Values
      reads this
    {
      Values(ttl, dpoe, enabled, interval)
    }

    constructor ()
      ensures Contents() == DEFAULTS && InRange(Contents())
      ensures ttl == 30 && !dpoe && !enabled && interval == 900
    {
      ttl, dpoe, enabled, interval := 30, false, false, 900;
    }

    /** A readable number replaces the current one when it lies in its range. */
    method LoadNumber(psm: Client, key: string, readable: bool, wild: u32, current: u32, lo: u32, hi: u32)
      returns (v: u32)
      ensures v == LoadedUint(psm.store, key, readable, wild, current, lo, hi)
    {
      var n := psm.GetUint(key, readable, wild);
      if n.None? { return current; }
      v := n.value;
      if v < lo || v > hi { v := current; }
    }

    method LoadFlag(psm: Client, key: string, readable: bool, current: bool) returns (b: bool)
      ensures b == LoadedBool(psm.store, key, readable, current)
    {
      var r := psm.GetBool(key, readable);
      b := if r.Some? then r.value else current;
    }

    method Load(psm: Client, a: Access)
      requires |a.readable| == 4
      modifies this
      ensures Contents() == Loaded(psm.store, a, old(Contents()))
      ensures Unread(psm.store, KEY_TTL, a.readable[0]) ==> ttl == old(ttl)
      ensures Unread(psm.store, KEY_DPOE, a.readable[1]) ==> dpoe == old(dpoe)
      ensures Unread(psm.store, KEY_ENABLED, a.readable[2]) ==> enabled == old(enabled)
      ensures Unread(psm.store, KEY_INTERVAL, a.readable[3]) ==> interval == old(interval)
    {
      ttl := LoadNumber(psm, KEY_TTL, a.readable[0], a.wildTtl, ttl, 1, 300);
      dpoe := LoadFlag(psm, KEY_DPOE, a.readable[1], dpoe);
      enabled := LoadFlag(psm, KEY_ENABLED, a.readable[2], enabled);
      interval := LoadNumber(psm, KEY_INTERVAL, a.readable[3], a.wildInterval, interval, 60, 3600);
    }

    method Store(psm: Client, outcomes: seq<Outcome>) returns (ok: bool)
      requires |outcomes| == 4
      modifies psm
      ensures psm.store == AfterSave(old(psm.store), Save(Contents(), outcomes))
      ensures ok <==> Reaches(Save(Contents(), outcomes), 4)
      ensures ok <==> outcomes[0].Stored? && outcomes[1].Stored? && outcomes[2].Stored? && outcomes[3].Stored?
    {
      ghost var s, st := Save(Contents(), outcomes), psm.store;
      assert SavedUpTo(st, s, 0) == st;
      ok := psm.SetUint(KEY_TTL, ttl, outcomes[0]);
      assert psm.store == SavedUpTo(st, s, 1);
      if !ok { Stops(st, s, 0); return; }
      ok := psm.SetBool(KEY_DPOE, dpoe, outcomes[1]);
      assert psm.store == SavedUpTo(st, s, 2);
      if !ok { Stops(st, s, 1); return; }
      ok := psm.SetBool(KEY_ENABLED, enabled, outcomes[2]);
      assert psm.store == SavedUpTo(st, s, 3);
      if !ok { Stops(st, s, 2); return; }
      ok := psm.SetUint(KEY_INTERVAL, interval, outcomes[3]);
    }
  }

  /** Nothing is written after the first failure. */
  lemma Stops(st: Store, s: Save, k: nat)
    requires Proper(s) && k < 4 && !s.outcomes[k].Stored?
    ensures SavedUpTo(st, s, 4) == SavedUpTo(st, s, k + 1) && !Reaches(s, 4)
  {
    assert forall j | k < j <= 4 :: !Reaches(s, j);
    assert k + 1 <= 3 ==> SavedUpTo(st, s, 4) == SavedUpTo(st, s, 3);
    assert k + 1 <= 2 ==> SavedUpTo(st, s, 3) == SavedUpTo(st, s, 2);
    assert k + 1 <= 1 ==> SavedUpTo(st, s, 2) == SavedUpTo(st, s, 1);
  }

  // ------------------------------------------------------------ one save, one load

  lemma KeysDistinct()
    ensures forall i, j | 0 <= i < j < 4 :: KEYS[i] != KEYS[j]
  {
    assert |KEY_TTL| == 32 && |KEY_DPOE| == 27 && |KEY_ENABLED| == 35 && |KEY_INTERVAL| == 43;
  }

  /** The save wrote the k-th key. */
  predicate Wrote(s: Save, k: nat)
    requires Proper(s) && k < 4
  {
    Reaches(s, k) && !s.outcomes[k].FailedUnchanged?
  }

  /** A store holds at a key what another one does. */
  predicate SameAt(a: Store, b: Store, key: string) { (key in a <==> key in b) && (key in b ==> a[key] == b[key]) }

  /** One write step touches its key only, and that exactly when the save wrote it. */
  lemma SaveStep(st: Store, s: Save, n: nat)
    requires Proper(s) && n < 4
    ensures var before := SavedUpTo(st, s, n); var after := SavedUpTo(st, s, n + 1);
            && (Wrote(s, n) ==> KEYS[n] in after && after[KEYS[n]] == Printed(s.values, n))
            && (!Wrote(s, n) ==> after == before)
            && forall key | key != KEYS[n] :: SameAt(after, before, key)
  {
  }

  /** A save leaves at every key the new text if it wrote the key and the old one
      otherwise, and touches no other key. */
  lemma {:induction false} SaveWrites(st: Store, s: Save, n: nat, key: string)
    requires Proper(s) && n <= 4
    ensures var after := SavedUpTo(st, s, n);
            && (forall k | 0 <= k < n && key == KEYS[k] ::
                  if Wrote(s, k) then key in after && after[key] == Printed(s.values, k) else SameAt(after, st, key))
            && ((forall k | 0 <= k < n :: key != KEYS[k]) ==> SameAt(after, st, key))
  {
    KeysDistinct();
    if n > 0 {
      SaveWrites(st, s, n - 1, key);
      SaveStep(st, s, n - 1);
      assert SameAt(SavedUpTo(st, s, n), SavedUpTo(st, s, n - 1), key) || key == KEYS[n - 1];
    }
  }

  lemma KeyAfterSave(st: Store, s: Save, k: nat)
    requires Proper(s) && k < 4
    ensures var after := AfterSave(st, s);
            if Wrote(s, k) then KEYS[k] in after && after[KEYS[k]] == Printed(s.values, k)
            else SameAt(after, st, KEYS[k])
  {
    SaveWrites(st, s, |s.outcomes|, KEYS[k]);
  }

  /** The store holds the save's text at the k-th key. */
  predicate NewAt(st: Store, s: Save, k: nat)
    requires k < 4
  {
    KEYS[k] in st && st[KEYS[k]] == Printed(s.values, k)
  }

  /** The save is all or nothing: afterwards every key holds the new text, or every key
      holds what it held before. */
  predicate AllOrNothing(st: Store, s: Save)
    requires Proper(s)
  {
    var after := AfterSave(st, s);
    || (forall k | 0 <= k < 4 :: NewAt(after, s, k))
    || (forall k | 0 <= k < 4 :: SameAt(after, st, KEYS[k]))
  }

  /** A key holds the new text after a save exactly if the save wrote it or the text was
      there, and what it held before exactly if the save did not write it or wrote the
      same text. */
  lemma KeyNewOrSame(st: Store, s: Save, k: nat)
    requires Proper(s) && k < 4
    ensures NewAt(AfterSave(st, s), s, k) <==> Wrote(s, k) || NewAt(st, s, k)
    ensures SameAt(AfterSave(st, s), st, KEYS[k]) <==> !Wrote(s, k) || NewAt(st, s, k)
  {
    KeyAfterSave(st, s, k);
  }

  /** Exactly when a save is all or nothing: every key it did not write held the new
      text already, or every key it wrote did. */
  lemma AllOrNothingIff(st: Store, s: Save)
    requires Proper(s)
    ensures AllOrNothing(st, s) <==>
            || (forall k | 0 <= k < 4 && !Wrote(s, k) :: NewAt(st, s, k))
            || (forall k | 0 <= k < 4 && Wrote(s, k) :: NewAt(st, s, k))
  {
    forall k | 0 <= k < 4
      ensures NewAt(AfterSave(st, s), s, k) <==> Wrote(s, k) || NewAt(st, s, k)
      ensures SameAt(AfterSave(st, s), st, KEYS[k]) <==> !Wrote(s, k) || NewAt(st, s, k)
    {
      KeyNewOrSame(st, s, k);
    }
  }

  /** So a save whose values all differ from the stored ones is all or nothing exactly
      when its first write has no effect or its last one is reached and has. */
  lemma ChangedSaveIsAtomicIff(st: Store, s: Save)
    requires Proper(s) && forall k | 0 <= k < 4 :: !NewAt(st, s, k)
    ensures AllOrNothing(st, s) <==> s.outcomes[0].FailedUnchanged? || Wrote(s, 3)
  {
    AllOrNothingIff(st, s);
    assert Wrote(s, 0) <==> !s.outcomes[0].FailedUnchanged?;
    assert Wrote(s, 3) ==> Wrote(s, 0) && Wrote(s, 1) && Wrote(s, 2);
    assert Wrote(s, 1) || Wrote(s, 2) || Wrote(s, 3) ==> Wrote(s, 0);
  }

  /** After a successful save the store holds exactly the configuration in memory,
      and a full load from it recovers every value that is in range and that atoi
      can represent; an out-of-range number keeps the value from before the load. */
  lemma LoadAfterSave(st: Store, s: Save, a: Access, v: Values)
    requires Proper(s) && Reaches(s, 4)
    requires a.readable == [true, true, true, true]
    ensures var after := AfterSave(st, s);
            forall k | 0 <= k < 4 :: KEYS[k] in after && after[KEYS[k]] == Printed(s.values, k)
    ensures var r := Loaded(AfterSave(st, s), a, v);
            var ttl := if s.values.ttl < TWO31 then s.values.ttl else a.wildTtl;
            var interval := if s.values.interval < TWO31 then s.values.interval else a.wildInterval;
            && r.dpoe == s.values.dpoe && r.enabled == s.values.enabled
            && r.ttl == (if ValidTtl(ttl) then ttl else v.ttl)
            && r.interval == (if ValidInterval(interval) then interval else v.interval)
  {
    var after := AfterSave(st, s);
    forall k | 0 <= k < 4
      ensures KEYS[k] in after && after[KEYS[k]] == Printed(s.values, k)
    {
      KeyAfterSave(st, s, k);
      assert Wrote(s, k);
    }
    assert KEYS[0] in after && KEYS[1] in after && KEYS[2] in after && KEYS[3] in after;
    UintReadsBack(after, KEY_TTL, s.values.ttl, a.wildTtl);
    BoolReadsBack(after, KEY_DPOE, s.values.dpoe);
    BoolReadsBack(after, KEY_ENABLED, s.values.enabled);
    UintReadsBack(after, KEY_INTERVAL, s.values.interval, a.wildInterval);
  }

  /** Starting from any in-range configuration, saving and loading is the identity
      exactly when each number is in range or was the value before the load. */
  lemma RoundTripIff(st: Store, s: Save, a: Access, v: Values)
    requires Proper(s) && Reaches(s, 4) && s.values.ttl < TWO31 && s.values.interval < TWO31
    requires a.readable == [true, true, true, true]
    ensures Loaded(AfterSave(st, s), a, v) == s.values <==>
            && (ValidTtl(s.values.ttl) || s.values.ttl == v.ttl)
            && (ValidInterval(s.values.interval) || s.values.interval == v.interval)
  {
    LoadAfterSave(st, s, a, v);
  }

  /** A value whose key is missing, or whose read fails, stays as it was before the load,
      whatever the other keys do; so a first start with an empty store keeps the defaults. */
  lemma LoadKeepsUnread(st: Store, a: Access, v: Values)
    requires |a.readable| == 4
    ensures var r := Loaded(st, a, v);
            && ("dmsb.eponmanager.CacheTtlSeconds" !in st || !a.readable[0] ==> r.ttl == v.ttl)
            && ("dmsb.eponmanager.DpoeEnable" !in st || !a.readable[1] ==> r.dpoe == v.dpoe)
            && ("dmsb.eponmanager.StatsPollerEnabled" !in st || !a.readable[2] ==> r.enabled == v.enabled)
            && ("dmsb.eponmanager.StatsPollerIntervalSeconds" !in st || !a.readable[3] ==> r.interval == v.interval)
    ensures st == map[] ==> Loaded(st, a, v) == v
  {
  }

  /** A readable number is taken exactly within its range, and text that is no number
      never; a readable flag is true exactly for the three spellings. */
  lemma LoadTakesRead(st: Store, a: Access, v: Values, n: nat)
    requires |a.readable| == 4 && n < TWO31
    ensures var r := Loaded(st, a, v);
            var key := "dmsb.eponmanager.CacheTtlSeconds";
            a.readable[0] && key in st && st[key] == Decimal(n) ==> r.ttl == if 1 <= n <= 300 then n else v.ttl
    ensures var r := Loaded(st, a, v);
            var key := "dmsb.eponmanager.StatsPollerIntervalSeconds";
            a.readable[3] && key in st && st[key] == Decimal(n) ==>
              r.interval == if 60 <= n <= 3600 then n else v.interval
    ensures var r := Loaded(st, a, v);
            var key := "dmsb.eponmanager.DpoeEnable";
            a.readable[1] && key in st ==> (r.dpoe <==> st[key] == "TRUE" || st[key] == "true" || st[key] == "1")
    ensures var r := Loaded(st, a, v);
            var key := "dmsb.eponmanager.StatsPollerEnabled";
            a.readable[2] && key in st ==> (r.enabled <==> st[key] == "TRUE" || st[key] == "true" || st[key] == "1")
  {
    if KEY_TTL in st && st[KEY_TTL] == Decimal(n) { UintReadsBack(st, KEY_TTL, n, a.wildTtl); }
    if KEY_INTERVAL in st && st[KEY_INTERVAL] == Decimal(n) { UintReadsBack(st, KEY_INTERVAL, n, a.wildInterval); }
    if KEY_DPOE in st { SpellingsSurvive(st[KEY_DPOE]); }
    if KEY_ENABLED in st { SpellingsSurvive(st[KEY_ENABLED]); }
  }

  /** Text that does not start with a number never replaces one. */
  lemma LoadRefusesText(st: Store, a: Access, v: Values, key: string)
    requires |a.readable| == 4 && key in st
    requires StartsNoNumber(st[key])
    ensures key == "dmsb.eponmanager.CacheTtlSeconds" ==> Loaded(st, a, v).ttl == v.ttl
    ensures key == "dmsb.eponmanager.StatsPollerIntervalSeconds" ==> Loaded(st, a, v).interval == v.interval
  {
    AtoiOfNoNumber(Truncate(st[key], UINT_BUFFER));
  }

  /** What a save leaves at a key it writes or does not. */
  predicate Holds(after: Store, st: Store, key: string, written: bool, text: string)
  {
    if written then key in after && after[key] == text
    else (key in after <==> key in st) && (key in st ==> after[key] == st[key])
  }

  /** The keys are written in this order, each only if all writes before it succeeded, and
      no other key is touched. */
  lemma SaveOrder(st: Store, s: Save, other: string)
    requires Proper(s)
    ensures var after, v, o := AfterSave(st, s), s.values, s.outcomes;
            var second := o[0].Stored?;
            var third := second && o[1].Stored?;
            var fourth := third && o[2].Stored?;
            && Holds(after, st, "dmsb.eponmanager.CacheTtlSeconds", !o[0].FailedUnchanged?, Decimal(v.ttl))
            && Holds(after, st, "dmsb.eponmanager.DpoeEnable", second && !o[1].FailedUnchanged?,
                     if v.dpoe then "TRUE" else "FALSE")
            && Holds(after, st, "dmsb.eponmanager.StatsPollerEnabled", third && !o[2].FailedUnchanged?,
                     if v.enabled then "TRUE" else "FALSE")
            && Holds(after, st, "dmsb.eponmanager.StatsPollerIntervalSeconds", fourth && !o[3].FailedUnchanged?,
                     Decimal(v.interval))
    ensures other !in KEYS ==> Holds(AfterSave(st, s), st, other, false, "")
  {
    KeyAfterSave(st, s, 0);
    KeyAfterSave(st, s, 1);
    KeyAfterSave(st, s, 2);
    KeyAfterSave(st, s, 3);
    assert Reaches(s, 0) && (Reaches(s, 1) <==> s.outcomes[0].Stored?);
    assert Reaches(s, 2) <==> s.outcomes[0].Stored? && s.outcomes[1].Stored?;
    assert Reaches(s, 3) <==> s.outcomes[0].Stored? && s.outcomes[1].Stored? && s.outcomes[2].Stored?;
    SaveWrites(st, s, |s.outcomes|, other);
  }

  const ALL_READABLE: Access := Access([true, true, true, true], 0, 0)

  const ALL_STORED: seq<Outcome> := [Stored, Stored, Stored, Stored]

  /** A torn save: over the stored defaults, a save of a new TTL and a new DPoE flag whose
      second write fails; the next load returns neither the old nor the new configuration. */
  lemma TornSave(st: Store)
    ensures var before := AfterSave(st, Save(DEFAULTS, ALL_STORED));
            var s := Save(DEFAULTS.(ttl := 60, dpoe := true), [Stored, FailedUnchanged, Stored, Stored]);
            && !AllOrNothing(before, s)
            && Loaded(AfterSave(before, s), ALL_READABLE, DEFAULTS) == DEFAULTS.(ttl := 60)
  {
    var saved := Save(DEFAULTS, ALL_STORED);
    var before := AfterSave(st, saved);
    var s := Save(DEFAULTS.(ttl := 60, dpoe := true), [Stored, FailedUnchanged, Stored, Stored]);
    LoadAfterSave(st, saved, ALL_READABLE, DEFAULTS);
    assert NewAt(before, saved, 0) && NewAt(before, saved, 1) && NewAt(before, saved, 2) && NewAt(before, saved, 3);
    CutAfterFirst(before, saved, s);
    Decimal60();
    AllOrNothingIff(before, s);
    assert !NewAt(before, s, 0) && Wrote(s, 0);
    assert !NewAt(before, s, 1) && !Wrote(s, 1);
  }

  lemma Decimal60()
    ensures Decimal(60) != Decimal(30) && BoolText(true) != BoolText(false)
  {
    ValueOfDecimal(60);
    ValueOfDecimal(30);
    assert |BoolText(true)| == 4 && |BoolText(false)| == 5;
  }

  /** A save cut after its first write, over a store that holds another configuration. */
  lemma CutAfterFirst(before: Store, saved: Save, s: Save)
    requires Proper(s) && s.outcomes[0].Stored? && s.outcomes[1].FailedUnchanged?
    requires forall k | 0 <= k < 4 :: NewAt(before, saved, k)
    requires InRange(s.values) && InRange(saved.values)
    ensures Loaded(AfterSave(before, s), ALL_READABLE, saved.values) == saved.values.(ttl := s.values.ttl)
  {
    var after := AfterSave(before, s);
    assert NewAt(before, saved, 1) && NewAt(before, saved, 2) && NewAt(before, saved, 3);
    KeyAfterSave(before, s, 0);
    KeyAfterSave(before, s, 1);
    KeyAfterSave(before, s, 2);
    KeyAfterSave(before, s, 3);
    assert Wrote(s, 0) && !Wrote(s, 1) && !Wrote(s, 2) && !Wrote(s, 3);
    UintReadsBack(after, KEY_TTL, s.values.ttl, 0);
    BoolReadsBack(after, KEY_DPOE, saved.values.dpoe);
    BoolReadsBack(after, KEY_ENABLED, saved.values.enabled);
    UintReadsBack(after, KEY_INTERVAL, saved.values.interval, 0);
  }

  /** An interval of 30 seconds, which set_interval takes, is saved and then lost: the load
      keeps the 900 seconds from before. */
  lemma ShortIntervalIsLost(st: Store)
    ensures var s := Save(DEFAULTS.(interval := 30), ALL_STORED);
            && NewAt(AfterSave(st, s), s, 3)
            && Loaded(AfterSave(st, s), ALL_READABLE, DEFAULTS) == DEFAULTS != s.values
  {
    LoadAfterSave(st, Save(DEFAULTS.(interval := 30), ALL_STORED), ALL_READABLE, DEFAULTS);
  }

  /** A load keeps the configuration in range whatever the store holds and whichever
      reads fail. */
  lemma LoadStaysInRange(st: Store, a: Access, v: Values)
    requires |a.readable| == 4 && InRange(v)
    ensures InRange(Loaded(st, a, v))
  {
  }

  // ------------------------------------------------------------ histories of failing saves

  ghost predicate AllProper(history: seq<Save>) { forall i | 0 <= i < |history| :: Proper(history[i]) }

  function AfterHistory(st: Store, history: seq<Save>): Store
    requires forall i | 0 <= i < |history| :: Proper(history[i])
  {
    if history == [] then st
    else AfterSave(AfterHistory(st, history[..|history| - 1]), history[|history| - 1])
  }

  /** One more than the position of the last save that wrote the k-th key, or 0. */
  function LastWriter(history: seq<Save>, k: nat): (w: nat)
    requires (forall i | 0 <= i < |history| :: Proper(history[i])) && k < 4
    ensures w <= |history| && (w > 0 ==> Wrote(history[w - 1], k))
  {
    if history == [] then 0
    else if Wrote(history[|history| - 1], k) then |history|
    else LastWriter(history[..|history| - 1], k)
  }

  /** The store holds at the k-th key the text of the last save of the history that
      wrote it, or what it held in the beginning. */
  predicate HoldsLast(st: Store, after: Store, history: seq<Save>, k: nat)
    requires (forall i | 0 <= i < |history| :: Proper(history[i])) && k < 4
  {
    var w := LastWriter(history, k);
    if w > 0 then KEYS[k] in after && after[KEYS[k]] == Printed(history[w - 1].values, k)
    else SameAt(after, st, KEYS[k])
  }

  lemma LastWriterSnoc(history: seq<Save>, s: Save, k: nat)
    requires AllProper(history) && Proper(s) && k < 4
    ensures LastWriter(history + [s], k) == if Wrote(s, k) then |history| + 1 else LastWriter(history, k)
  {
    assert (history + [s])[..|history|] == history;
  }

  lemma HoldsLastStep(st: Store, before: Store, history: seq<Save>, s: Save, k: nat)
    requires AllProper(history) && Proper(s) && k < 4 && HoldsLast(st, before, history, k)
    ensures HoldsLast(st, AfterSave(before, s), history + [s], k)
  {
    KeyAfterSave(before, s, k);
    LastWriterSnoc(history, s, k);
  }

  /** After any history of saves failing at any key, each key holds the text of the
      last save that wrote it. */
  lemma {:induction false} CrashConsistent(st: Store, history: seq<Save>, k: nat)
    requires AllProper(history) && k < 4
    ensures HoldsLast(st, AfterHistory(st, history), history, k)
  {
    if history != [] {
      var n := |history| - 1;
      CrashConsistent(st, history[..n], k);
      HoldsLastStep(st, AfterHistory(st, history[..n]), history[..n], history[n], k);
      assert history == history[..n] + [history[n]];
    }
  }

  /** And an earlier key is never older than a later one. */
  lemma {:induction false} EarlierKeysAreNewer(history: seq<Save>, k: nat)
    requires AllProper(history) && 0 < k < 4
    ensures LastWriter(history, k - 1) >= LastWriter(history, k)
  {
    if history != [] { EarlierKeysAreNewer(history[..|history| - 1], k); }
  }

  /** After any such history one more successful save makes the store equal memory
      again, so that a load returns the saved in-range configuration. */
  lemma SaveRepairs(st: Store, history: seq<Save>, s: Save, a: Access, v: Values)
    requires AllProper(history) && Proper(s) && Reaches(s, 4) && InRange(s.values)
    requires a.readable == [true, true, true, true]
    ensures Loaded(AfterHistory(st, history + [s]), a, v) == s.values
  {
    assert (history + [s])[..|history|] == history;
    LoadAfterSave(AfterHistory(st, history), s, a, v);
  }
}
