/** Access to the persistent store over the bus: strings, and unsigned integers and
    booleans as strings. */
module Psm {
  import opened CText

  type Store = map<string, string>

  const UINT_BUFFER: nat := 32
  const BOOL_BUFFER: nat := 16

  /** How a bus write ends: stored, or reported as failed with or without having
      taken effect. */
  datatype Outcome = Stored | FailedUnchanged | FailedButStored

  function AfterWrite(st: Store, key: string, value: string, o: Outcome): Store
  {
    if o.FailedUnchanged? then st else st[key := value]
  }

  /** What a read of size characters delivers; unreadable covers a missing handle, a
      bus error and a reply without text. */
  function Fetched(st: Store, key: string, size: nat, readable: bool): Option<string>
    requires size > 0
  {
    if readable && key in st then Some(Truncate(st[key], size)) else None
  }

  /** The number get_uint delivers; wild is atoi's unpromised result out of range. */
  function ToUint(s: string, wild: u32): u32
  {
    match Atoi(s)
    case Number(v) => Wrap32(v)
    case NoNumber => 0
    case OutOfRange => wild
  }

  predicate ToBool(s: string) { s == "TRUE" || s == "true" || s == "1" }

  function BoolText(b: bool): string { if b then "TRUE" else "FALSE" }

  class Client {
    var store: Store

    constructor (store: Store)
      ensures this.store == store
    {
      this.store := store;
    }

    method GetString(key: string, size: nat, readable: bool) returns (r: Option<string>)
      requires size > 0
      ensures r == Fetched(store, key, size, readable)
      ensures r.Some? <==> readable && key in store
      ensures r.Some? ==> r.value <= store[key] && |r.value| == Min(|store[key]|, size - 1)
    {
      if !readable || key !in store { return None; }
      r := Some(Truncate(store[key], size));
    }

    method SetString(key: string, value: string, o: Outcome) returns (ok: bool)
      modifies this
      ensures store == AfterWrite(old(store), key, value, o)
      ensures store == if o.FailedUnchanged? then old(store) else old(store)[key := value]
      ensures ok <==> o.Stored?
    {
      if !o.FailedUnchanged? { store := store[key := value]; }
      ok := o.Stored?;
    }

    method GetUint(key: string, readable: bool, wild: u32) returns (r: Option<u32>)
      ensures r.Some? <==> Fetched(store, key, UINT_BUFFER, readable).Some?
      ensures r.Some? <==> readable && key in store
      ensures r.Some? ==> r.value == ToUint(Fetched(store, key, UINT_BUFFER, readable).value, wild)
    {
      var s := GetString(key, UINT_BUFFER, readable);
      r := if s.None? then None else Some(ToUint(s.value, wild));
    }

    method GetBool(key: string, readable: bool) returns (r: Option<bool>)
      ensures r.Some? <==> Fetched(store, key, BOOL_BUFFER, readable).Some?
      ensures r.Some? ==> r.value == ToBool(Fetched(store, key, BOOL_BUFFER, readable).value)
      ensures r.Some? <==> readable && key in store
      ensures r.Some? ==> (r.value <==> store[key] == "TRUE" || store[key] == "true" || store[key] == "1")
    {
      if readable && key in store { SpellingsSurvive(store[key]); }
      var s := GetString(key, BOOL_BUFFER, readable);
      r := if s.None? then None else Some(ToBool(s.value));
    }

    method SetUint(key: string, n: u32, o: Outcome) returns (ok: bool)
      modifies this
      ensures store == AfterWrite(old(store), key, Decimal(n), o)
      ensures ok <==> o.Stored?
    {
      ok := SetString(key, Decimal(n), o);
    }

    method SetBool(key: string, b: bool, o: Outcome) returns (ok: bool)
      modifies this
      ensures store == AfterWrite(old(store), key, BoolText(b), o)
      ensures ok <==> o.Stored?
    {
      ok := SetString(key, BoolText(b), o);
    }
  }

  /** A stored number reads back unchanged below 2^31, untouched by the buffer. */
  lemma UintReadsBack(st: Store, key: string, n: u32, wild: u32)
    requires key in st && st[key] == Decimal(n)
    ensures Fetched(st, key, UINT_BUFFER, true) == Some(Decimal(n))
    ensures ToUint(Decimal(n), wild) == if n < TWO31 then n else wild
  {
    DecimalFits(n);
    AtoiOfDecimal(n);
  }

  /** The three spellings of true, and no longer text, read as true through the buffer. */
  lemma SpellingsSurvive(text: string)
    ensures ToBool(Truncate(text, BOOL_BUFFER)) <==> text == "TRUE" || text == "true" || text == "1"
  {
    assert |"TRUE"| == 4 && |"true"| == 4 && |"1"| == 1;
  }

  /** A negative number reads as what a uint32_t keeps of it, and other text as 0. */
  lemma OddTextReads(n: nat, text: string, wild: u32)
    ensures 0 < n <= TWO31 ==> ToUint(['-'] + Decimal(n), wild) == TWO32 - n
    ensures n > TWO31 ==> ToUint(['-'] + Decimal(n), wild) == wild
    ensures StartsNoNumber(text) ==> ToUint(text, wild) == 0
  {
    ScanLimits(n);
    if StartsNoNumber(text) { AtoiOfNoNumber(text); }
  }

  lemma BoolReadsBack(st: Store, key: string, b: bool)
    requires key in st && st[key] == BoolText(b)
    ensures Fetched(st, key, BOOL_BUFFER, true) == Some(BoolText(b))
    ensures ToBool(BoolText(b)) == b
  {
    assert |"FALSE"| == 5 && |"TRUE"| == 4 && |"1"| == 1;
    assert "FALSE" != "TRUE" && "FALSE" != "1" && "FALSE"[0] != "true"[0] && |"true"| == 4;
  }
}
