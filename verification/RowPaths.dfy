/** The GET handlers of the dynamic tables: a row parameter's path is taken apart
    with substring search, number scanning and suffix tests. */
module RowPaths {
  import opened CText
  import HalLists
  import Interfaces
  import RowTables

  const BASE: string := "Device.Optical.Interface.1"
  const LLID_PREFIX: string := ".X_RDK_EPON.LLID."
  const CPE_PREFIX: string := ".DPOE.CPE."
  const VEIP_PREFIX: string := ".X_RDK_EPON.VEIP_Interface."

  /** The columns in the order the handlers test them. */
  const LLID_COLUMNS: seq<string> := ["LLID", "Status", "MACAddress", "Mode", "EncryptionEnabled", "ForwardingState"]
  const CPE_COLUMNS: seq<string> := ["MACAddress", "AgeTime", "Type"]
  const VEIP_COLUMNS: seq<string> := ["Name", "Status"]

  const LLID_ROWS_ANSWERED: nat := 32
  const CPE_ROWS_ANSWERED: nat := 256

  /** An answer names the column and the list entry it is taken from; NoColumn is a
      successful reply whose value was never set. */
  datatype Reply<E> =
    | Count(n: nat)
    | InvalidInput
    | NoSuchElement
    | Answer(column: nat, entry: E)
    | NoColumn(entry: E)

  /** The first column of which "." + name ends the path, or the number of columns. */
  function ColumnOf(path: string, columns: seq<string>): (k: nat)
    ensures k <= |columns|
  {
    if columns == [] || EndsWith(path, "." + columns[0]) then 0 else 1 + ColumnOf(path, columns[1..])
  }

  /** The instance number scanned after the prefix; 0 when there is none; wild is the
      unpromised result of scanning a number beyond 32 bits. */
  function InstanceAt(path: string, k: nat, wild: u32): u32
    requires k <= |path|
  {
    match ScanUnsigned(path[k..])
    case NoNumber => 0
    case Number(v) => Wrap32(v)
    case OutOfRange => wild
  }

  /** The reply once instance and column have been parsed. */
  function ParsedReply<E>(instance: nat, column: nat, rows: nat, columns: nat, list: HalLists.View<E>): Reply<E>
  {
    if instance == 0 || instance > rows then InvalidInput
    else
      match HalLists.EntryAt(list, instance - 1)
      case None => NoSuchElement
      case Some(e) => if column < columns then Answer(column, e) else NoColumn(e)
  }

  /** What the LLID and CPE handlers take from a path after the scalar parameters: the
      instance behind the first occurrence of the prefix, and the column. */
  function Parse(path: string, prefix: string, columns: seq<string>, wild: u32): Option<(u32, nat)>
  {
    var at := FindFrom(path, prefix, 0);
    if at.None? then None else Some((InstanceAt(path, at.value + |prefix|, wild), ColumnOf(path, columns)))
  }

  function RowReply<E>(path: string, prefix: string, rows: nat, columns: seq<string>, list: HalLists.View<E>, wild: u32)
    : Reply<E>
  {
    match Parse(path, prefix, columns, wild)
    case None => InvalidInput
    case Some((instance, column)) => ParsedReply(instance, column, rows, |columns|, list)
  }

  function LlidReply<E>(path: string, list: HalLists.View<E>, wild: u32): Reply<E>
  {
    if Contains(path, "LLIDNumberOfEntries") then Count(list.first)
    else RowReply(path, LLID_PREFIX, LLID_ROWS_ANSWERED, LLID_COLUMNS, list, wild)
  }

  function CpeReply<E>(path: string, maxCpe: u32, list: HalLists.View<E>, wild: u32): Reply<E>
  {
    if Contains(path, "MaxCPECount") then Count(maxCpe)
    else if Contains(path, "StaticCPECount") then Count(list.first)
    else if Contains(path, "DynamicCPECount") then Count(list.second)
    else if Contains(path, "CPENumberOfEntries") then Count(HalLists.Total(list))
    else RowReply(path, CPE_PREFIX, CPE_ROWS_ANSWERED, CPE_COLUMNS, list, wild)
  }

  /** The VEIP handler looks the row up by the name recorded at registration. */
  function VeipReply(path: string, rows: seq<RowTables.Row>, list: seq<Interfaces.Info>, nameLength: nat, wild: u32)
    : Reply<Interfaces.Info>
  {
    var prefix := BASE + VEIP_PREFIX;
    if Contains(path, "VEIP_InterfaceNumberOfEntries") then Count(|list|)
    else if !(prefix <= path) || ScanUnsigned(path[|prefix|..]).NoNumber? then InvalidInput
    else
      var instance := InstanceAt(path, |prefix|, wild);
      if instance == 0 || instance > |rows| then InvalidInput
      else if !rows[instance - 1].registered then NoSuchElement
      else
        match Interfaces.Lookup(list, rows[instance - 1].name, nameLength)
        case None => NoSuchElement
        case Some(info) =>
          if Contains(path, ".Name") then Answer(0, info)
          else if Contains(path, ".Status") then Answer(1, info)
          else NoColumn(info)
  }

  // ------------------------------------------------------------ printing paths

  function RowPath(head: string, n: nat, column: string): string { head + Decimal(n) + "." + column }

  function LlidPath(n: nat, column: string): string { RowPath(BASE + LLID_PREFIX, n, column) }

  function CpePath(n: nat, column: string): string { RowPath(BASE + ".X_RDK_EPON" + CPE_PREFIX, n, column) }

  function VeipPath(n: nat, column: string): string { RowPath(BASE + VEIP_PREFIX, n, column) }

  // ------------------------------------------------------------ parsing undoes printing

  /** The instance is read back from right behind the prefix. */
  lemma InstanceReadsBack(head: string, n: u32, column: string, wild: u32)
    ensures InstanceAt(RowPath(head, n, column), |head|, wild) == n
    ensures ScanUnsigned(RowPath(head, n, column)[|head|..]) == Number(n)
  {
    var rest := "." + column;
    assert RowPath(head, n, column)[|head|..] == Decimal(n) + rest;
    ScanOfDecimal(n, rest);
  }

  /** Column names without a dot: exactly the printed column ends the path. */
  lemma SuffixIdentifiesColumn(front: string, a: string, b: string)
    requires '.' !in a && '.' !in b
    ensures EndsWith(front + "." + a, "." + b) <==> a == b
  {
    var p := front + "." + a;
    var suffix := "." + b;
    if |b| < |a| {
      assert p[|p| - |b| - 1] == a[|a| - |b| - 1] != suffix[0];
      assert p[|p| - |suffix|..][0] != suffix[0];
    } else if |a| < |b| {
      var k := |b| - |a|;
      assert suffix[k] == b[k - 1] != '.' == p[|p| - |a| - 1];
      assert |suffix| <= |p| ==> p[|p| - |suffix|..][k] != suffix[k];
    } else {
      assert p[|p| - |suffix|..] == "." + a;
      assert ("." + a)[1..] == a && suffix[1..] == b;
    }
  }

  /** The columns are distinct and have no dots. */
  ghost predicate ProperColumns(columns: seq<string>)
  {
    && (forall i | 0 <= i < |columns| :: '.' !in columns[i])
    && (forall i, j | 0 <= i < j < |columns| :: columns[i] != columns[j])
  }

  lemma {:induction false} ColumnOfIs(path: string, columns: seq<string>, c: nat)
    requires c < |columns| && EndsWith(path, "." + columns[c])
    requires forall j | 0 <= j < c :: !EndsWith(path, "." + columns[j])
    ensures ColumnOf(path, columns) == c
  {
    if c > 0 {
      assert forall j | 0 <= j < c - 1 :: columns[1..][j] == columns[j + 1];
      ColumnOfIs(path, columns[1..], c - 1);
    }
  }

  lemma ColumnReadsBack(head: string, n: nat, columns: seq<string>, c: nat)
    requires ProperColumns(columns) && c < |columns|
    ensures ColumnOf(RowPath(head, n, columns[c]), columns) == c
  {
    var path := RowPath(head, n, columns[c]);
    forall j | 0 <= j < |columns|
      ensures EndsWith(path, "." + columns[j]) <==> j == c
    {
      SuffixIdentifiesColumn(head + Decimal(n), columns[c], columns[j]);
      assert j < c ==> columns[j] != columns[c];
      assert c < j ==> columns[c] != columns[j];
    }
    ColumnOfIs(path, columns, c);
  }

  /** The prefix first occurs at k when it stands there and no earlier dot is
      followed by its second character. */
  lemma FirstOccurrence(path: string, prefix: string, k: nat)
    requires OccursAt(path, prefix, k) && |prefix| >= 2 && prefix[0] == '.'
    requires forall j | 0 <= j < k :: path[j] == '.' ==> path[j + 1] != prefix[1]
    ensures FindFrom(path, prefix, 0) == Some(k)
  {
    FindFromIsFirst(path, prefix, 0);
    forall j: nat | j < k
      ensures !OccursAt(path, prefix, j)
    {
      if j + |prefix| <= |path| {
        assert path[j..j + |prefix|][0] == path[j] && path[j..j + |prefix|][1] == path[j + 1];
      }
    }
  }

  lemma LlidColumnsProper()
    ensures ProperColumns(LLID_COLUMNS)
  {
    assert LLID_COLUMNS[0][0] == 'L' && LLID_COLUMNS[1][0] == 'S' && LLID_COLUMNS[2][1] == 'A'
        && LLID_COLUMNS[3][1] == 'o' && LLID_COLUMNS[4][0] == 'E' && LLID_COLUMNS[5][0] == 'F';
  }

  lemma CpeColumnsProper()
    ensures ProperColumns(CPE_COLUMNS)
  {
    assert CPE_COLUMNS[0][0] == 'M' && CPE_COLUMNS[1][0] == 'A' && CPE_COLUMNS[2][0] == 'T';
  }

  lemma NoCharacter(head: string, n: nat, column: string, c: char)
    requires c !in head && c !in column && c != '.' && !IsDigit(c)
    ensures c !in RowPath(head, n, column)
  {
    assert forall i | 0 <= i < |Decimal(n)| :: IsDigit(Decimal(n)[i]);
  }

  /** The prefix is found right behind a front part that does not contain its start. */
  lemma PrefixReadsBack(front: string, prefix: string, n: nat, column: string)
    requires |prefix| >= 2 && prefix[0] == '.'
    requires forall j | 0 <= j < |front| :: front[j] == '.' ==> (front + prefix)[j + 1] != prefix[1]
    ensures FindFrom(RowPath(front + prefix, n, column), prefix, 0) == Some(|front|)
  {
    var head := front + prefix;
    var path := RowPath(head, n, column);
    assert path[|front|..|front| + |prefix|] == prefix;
    forall j | 0 <= j < |front|
      ensures path[j] == '.' ==> path[j + 1] != prefix[1]
    {
      assert path[j] == front[j] && path[j + 1] == head[j + 1];
    }
    FirstOccurrence(path, prefix, |front|);
  }

  /** Parsing a printed row path yields the printed instance and column. */
  lemma ParseReadsBack(front: string, prefix: string, columns: seq<string>, n: u32, c: nat, wild: u32)
    requires ProperColumns(columns) && c < |columns|
    requires |prefix| >= 2 && prefix[0] == '.'
    requires forall j | 0 <= j < |front| :: front[j] == '.' ==> (front + prefix)[j + 1] != prefix[1]
    ensures Parse(RowPath(front + prefix, n, columns[c]), prefix, columns, wild) == Some((n, c))
  {
    var path := RowPath(front + prefix, n, columns[c]);
    assert FindFrom(path, prefix, 0) == Some(|front|) by { PrefixReadsBack(front, prefix, n, columns[c]); }
    assert InstanceAt(path, |front| + |prefix|, wild) == n by {
      InstanceReadsBack(front + prefix, n, columns[c], wild);
    }
    assert ColumnOf(path, columns) == c by { ColumnReadsBack(front + prefix, n, columns, c); }
  }

  /** On the printed path of any 32-bit instance and any column the LLID handler
      extracts the instance, accepts it exactly from 1 to 32, and answers with that
      column of the entry one below. */
  lemma LlidPathRoundTrip<E>(n: u32, c: nat, list: HalLists.View<E>, wild: u32)
    requires c < |LLID_COLUMNS|
    ensures LlidReply(LlidPath(n, LLID_COLUMNS[c]), list, wild) ==
            if n == 0 || n > LLID_ROWS_ANSWERED then InvalidInput
            else
              match HalLists.EntryAt(list, n - 1)
              case None => NoSuchElement
              case Some(e) => Answer(c, e)
  {
    LlidColumnsProper();
    LlidHasNoM(c);
    NoCharacter(BASE + LLID_PREFIX, n, LLID_COLUMNS[c], 'm');
    assert "LLIDNumberOfEntries"[6] == 'm';
    AbsentCharacter(LlidPath(n, LLID_COLUMNS[c]), "LLIDNumberOfEntries", 'm');
    DotsOfBase(LLID_PREFIX);
    ParseReadsBack(BASE, LLID_PREFIX, LLID_COLUMNS, n, c, wild);
  }

  lemma LlidHasNoM(c: nat)
    requires c < |LLID_COLUMNS|
    ensures 'm' !in BASE + LLID_PREFIX && 'm' !in LLID_COLUMNS[c]
  {
  }

  lemma DotsOfBase(prefix: string)
    requires |prefix| >= 2 && prefix[0] == '.' && prefix[1] in ['X', 'D']
    ensures forall j | 0 <= j < |BASE| :: BASE[j] == '.' ==> (BASE + prefix)[j + 1] != prefix[1]
  {
    assert |BASE| == 26 && BASE[25] == '1';
    assert forall j | 0 <= j < 25 :: BASE[j] == '.' ==> BASE[j + 1] != 'X' && BASE[j + 1] != 'D';
  }

  /** Likewise for the CPE handler, from 1 to 256. */
  lemma CpePathRoundTrip<E>(n: u32, c: nat, maxCpe: u32, list: HalLists.View<E>, wild: u32)
    requires c < |CPE_COLUMNS|
    ensures CpeReply(CpePath(n, CPE_COLUMNS[c]), maxCpe, list, wild) ==
            if n == 0 || n > CPE_ROWS_ANSWERED then InvalidInput
            else
              match HalLists.EntryAt(list, n - 1)
              case None => NoSuchElement
              case Some(e) => Answer(c, e)
  {
    var front := BASE + ".X_RDK_EPON";
    var path := CpePath(n, CPE_COLUMNS[c]);
    CpeColumnsProper();
    CpeHasNoU(c);
    NoCharacter(front + CPE_PREFIX, n, CPE_COLUMNS[c], 'u');
    assert "MaxCPECount"[8] == 'u' && "StaticCPECount"[11] == 'u';
    assert "DynamicCPECount"[12] == 'u' && "CPENumberOfEntries"[4] == 'u';
    AbsentCharacter(path, "MaxCPECount", 'u');
    AbsentCharacter(path, "StaticCPECount", 'u');
    AbsentCharacter(path, "DynamicCPECount", 'u');
    AbsentCharacter(path, "CPENumberOfEntries", 'u');
    DotsOfCpeFront();
    ParseReadsBack(front, CPE_PREFIX, CPE_COLUMNS, n, c, wild);
  }

  lemma CpeHasNoU(c: nat)
    requires c < |CPE_COLUMNS|
    ensures 'u' !in BASE + ".X_RDK_EPON" + CPE_PREFIX && 'u' !in CPE_COLUMNS[c]
  {
  }

  lemma DotsOfCpeFront()
    ensures var front := BASE + ".X_RDK_EPON";
            forall j | 0 <= j < |front| :: front[j] == '.' ==> (front + CPE_PREFIX)[j + 1] != CPE_PREFIX[1]
  {
    DotsOfBase(".D");
    var front, tail := BASE + ".X_RDK_EPON", ".X_RDK_EPON";
    assert forall j | 0 < j < |tail| :: tail[j] != '.';
    forall j | 0 <= j < |front|
      ensures front[j] == '.' ==> (front + CPE_PREFIX)[j + 1] != CPE_PREFIX[1]
    {
      if j < |BASE| {
        assert front[j] == BASE[j];
        assert j + 1 < |BASE| ==> (front + CPE_PREFIX)[j + 1] == (BASE + ".D")[j + 1];
        assert BASE[25] == '1';
      } else {
        assert front[j] == tail[j - |BASE|];
        assert j == |BASE| ==> (front + CPE_PREFIX)[j + 1] == 'X';
      }
    }
  }

  /** The table registers up to 64 LLID rows but the handler answers only 32 of them:
      rows 33 to 64 are rejected whatever the list holds. */
  lemma LlidRowsBeyond32<E>(n: u32, c: nat, list: HalLists.View<E>, names: seq<string>, wild: u32)
    requires LLID_ROWS_ANSWERED < n <= RowTables.MAX_LLID_INSTANCES <= |names| && c < |LLID_COLUMNS|
    ensures var s := RowTables.Sync(|names|, names, seq(|names|, _ => true));
            RowTables.Synced(RowTables.Blank(RowTables.MAX_LLID_INSTANCES), s)[n - 1].registered
    ensures LlidReply(LlidPath(n, LLID_COLUMNS[c]), list, wild) == InvalidInput
  {
    LlidPathRoundTrip(n, c, list, wild);
  }

  /** The VEIP handler body once instance and column are known. */
  lemma VeipReplyAt(path: string, n: u32, c: nat, rows: seq<RowTables.Row>,
                    list: seq<Interfaces.Info>, nameLength: nat, wild: u32)
    requires c < |VEIP_COLUMNS|
    requires !Contains(path, "VEIP_InterfaceNumberOfEntries")
    requires BASE + VEIP_PREFIX <= path && ScanUnsigned(path[|BASE + VEIP_PREFIX|..]) == Number(n)
    requires Contains(path, ".Name") <==> c == 0
    requires c == 1 ==> Contains(path, ".Status")
    ensures VeipReply(path, rows, list, nameLength, wild) ==
            if n == 0 || n > |rows| then InvalidInput
            else if !rows[n - 1].registered then NoSuchElement
            else
              match Interfaces.Lookup(list, rows[n - 1].name, nameLength)
              case None => NoSuchElement
              case Some(info) => Answer(c, info)
  {
    assert InstanceAt(path, |BASE + VEIP_PREFIX|, wild) == n;
  }

  /** The VEIP handler on a printed path: rows 1 up to the table size, the entry found
      under the recorded name, and the printed column. */
  lemma VeipPathRoundTrip(n: u32, c: nat, rows: seq<RowTables.Row>,
                          list: seq<Interfaces.Info>, nameLength: nat, wild: u32)
    requires c < |VEIP_COLUMNS|
    ensures VeipReply(VeipPath(n, VEIP_COLUMNS[c]), rows, list, nameLength, wild) ==
            if n == 0 || n > |rows| then InvalidInput
            else if !rows[n - 1].registered then NoSuchElement
            else
              match Interfaces.Lookup(list, rows[n - 1].name, nameLength)
              case None => NoSuchElement
              case Some(info) => Answer(c, info)
  {
    InstanceReadsBack(BASE + VEIP_PREFIX, n, VEIP_COLUMNS[c], wild);
    VeipNotCount(n, c);
    VeipColumnMarks(n, c);
    VeipReplyAt(VeipPath(n, VEIP_COLUMNS[c]), n, c, rows, list, nameLength, wild);
  }

  lemma VeipNotCount(n: nat, c: nat)
    requires c < |VEIP_COLUMNS|
    ensures !Contains(VeipPath(n, VEIP_COLUMNS[c]), "VEIP_InterfaceNumberOfEntries")
  {
    VeipHasNoB(c);
    NoCharacter(BASE + VEIP_PREFIX, n, VEIP_COLUMNS[c], 'b');
    assert "VEIP_InterfaceNumberOfEntries"[17] == 'b';
    AbsentCharacter(VeipPath(n, VEIP_COLUMNS[c]), "VEIP_InterfaceNumberOfEntries", 'b');
  }

  lemma VeipColumnMarks(n: nat, c: nat)
    requires c < |VEIP_COLUMNS|
    ensures Contains(VeipPath(n, VEIP_COLUMNS[c]), ".Name") <==> c == 0
    ensures c == 1 ==> Contains(VeipPath(n, VEIP_COLUMNS[c]), ".Status")
  {
    ColumnOccurs(BASE + VEIP_PREFIX + Decimal(n), VEIP_COLUMNS[c]);
    DottedColumns();
    if c == 1 { VeipStatusHasNoName(n); }
  }

  lemma VeipStatusHasNoName(n: nat)
    ensures !Contains(VeipPath(n, VEIP_COLUMNS[1]), ".Name")
  {
    VeipStatusHasNoM();
    NoCharacter(BASE + VEIP_PREFIX, n, VEIP_COLUMNS[1], 'm');
    assert ".Name"[3] == 'm';
    AbsentCharacter(VeipPath(n, VEIP_COLUMNS[1]), ".Name", 'm');
  }

  lemma DottedColumns()
    ensures "." + VEIP_COLUMNS[0] == ".Name" && "." + VEIP_COLUMNS[1] == ".Status"
  {
  }

  lemma ColumnOccurs(front: string, column: string)
    ensures Contains(front + "." + column, "." + column)
  {
    var path := front + "." + column;
    assert path[|front|..|front| + |"." + column|] == "." + column;
    assert OccursAt(path, "." + column, |front|);
    FindFromIsFirst(path, "." + column, 0);
  }

  lemma VeipHasNoB(c: nat)
    requires c < |VEIP_COLUMNS|
    ensures 'b' !in BASE + VEIP_PREFIX && 'b' !in VEIP_COLUMNS[c]
  {
  }

  lemma VeipStatusHasNoM()
    ensures 'm' !in BASE + VEIP_PREFIX && 'm' !in VEIP_COLUMNS[1]
  {
  }

  // ------------------------------------------------------------ scalar parameters and unknown columns

  lemma EndOccurs(front: string, key: string)
    ensures Contains(front + key, key)
  {
    assert (front + key)[|front|..|front| + |key|] == key;
    assert OccursAt(front + key, key, |front|);
    FindFromIsFirst(front + key, key, 0);
  }

  lemma LacksCharacter(front: string, key: string, other: string, c: char)
    requires c !in front && c !in key && c in other
    ensures !Contains(front + key, other)
  {
    AbsentCharacter(front + key, other, c);
  }

  const DPOE: string := "Device.Optical.Interface.1.X_RDK_EPON.DPOE."

  lemma DpoeLacksX()
    ensures 'x' !in DPOE
  {
  }

  lemma DpoeLacksS()
    ensures 'S' !in DPOE
  {
  }

  lemma DpoeLacksY()
    ensures 'y' !in DPOE
  {
  }

  lemma CountsLackX()
    ensures 'x' !in "StaticCPECount" && 'x' !in "DynamicCPECount" && 'x' !in "CPENumberOfEntries"
    ensures 'x' in "MaxCPECount"
  {
    assert "MaxCPECount"[2] == 'x';
  }

  lemma CountsLackS()
    ensures 'S' !in "DynamicCPECount" && 'S' !in "CPENumberOfEntries" && 'S' in "StaticCPECount"
  {
    assert "StaticCPECount"[0] == 'S';
  }

  lemma CountsLackY()
    ensures 'y' !in "CPENumberOfEntries" && 'y' in "DynamicCPECount"
  {
    assert "DynamicCPECount"[1] == 'y';
  }

  /** A later count's path holds none of the names tested before it. */
  lemma CountsApart()
    ensures !Contains(DPOE + "StaticCPECount", "MaxCPECount")
    ensures !Contains(DPOE + "DynamicCPECount", "MaxCPECount")
    ensures !Contains(DPOE + "DynamicCPECount", "StaticCPECount")
    ensures !Contains(DPOE + "CPENumberOfEntries", "MaxCPECount")
    ensures !Contains(DPOE + "CPENumberOfEntries", "StaticCPECount")
    ensures !Contains(DPOE + "CPENumberOfEntries", "DynamicCPECount")
  {
    DpoeLacksX();
    DpoeLacksS();
    DpoeLacksY();
    CountsLackX();
    CountsLackS();
    CountsLackY();
    LacksCharacter(DPOE, "StaticCPECount", "MaxCPECount", 'x');
    LacksCharacter(DPOE, "DynamicCPECount", "MaxCPECount", 'x');
    LacksCharacter(DPOE, "DynamicCPECount", "StaticCPECount", 'S');
    LacksCharacter(DPOE, "CPENumberOfEntries", "MaxCPECount", 'x');
    LacksCharacter(DPOE, "CPENumberOfEntries", "StaticCPECount", 'S');
    LacksCharacter(DPOE, "CPENumberOfEntries", "DynamicCPECount", 'y');
  }

  /** The CPE counts: each scalar parameter answers with its own number. */
  lemma CpeCounts<E>(maxCpe: u32, list: HalLists.View<E>, wild: u32)
    ensures CpeReply(DPOE + "MaxCPECount", maxCpe, list, wild) == Count(maxCpe)
    ensures CpeReply(DPOE + "StaticCPECount", maxCpe, list, wild) == Count(list.first)
    ensures CpeReply(DPOE + "DynamicCPECount", maxCpe, list, wild) == Count(list.second)
    ensures CpeReply(DPOE + "CPENumberOfEntries", maxCpe, list, wild) == Count(Wrap32(list.first + list.second))
  {
    CountsApart();
    EndOccurs(DPOE, "MaxCPECount");
    EndOccurs(DPOE, "StaticCPECount");
    EndOccurs(DPOE, "DynamicCPECount");
    EndOccurs(DPOE, "CPENumberOfEntries");
  }

  /** The LLID and VEIP counts, behind any path. */
  lemma OtherCounts<E>(front: string, list: HalLists.View<E>, rows: seq<RowTables.Row>,
                       interfaces: seq<Interfaces.Info>, nameLength: nat, wild: u32)
    ensures LlidReply(front + "LLIDNumberOfEntries", list, wild) == Count(list.first)
    ensures VeipReply(front + "VEIP_InterfaceNumberOfEntries", rows, interfaces, nameLength, wild)
         == Count(|interfaces|)
  {
    EndOccurs(front, "LLIDNumberOfEntries");
    EndOccurs(front, "VEIP_InterfaceNumberOfEntries");
  }

  lemma {:induction false} ColumnOfNone(path: string, columns: seq<string>)
    requires forall j | 0 <= j < |columns| :: !EndsWith(path, "." + columns[j])
    ensures ColumnOf(path, columns) == |columns|
  {
    if columns != [] {
      assert forall j | 0 <= j < |columns| - 1 :: columns[1..][j] == columns[j + 1];
      ColumnOfNone(path, columns[1..]);
    }
  }

  /** A column the table does not have, on a row it answers: the row is looked up all the
      same and the reply has no value. */
  lemma UnknownColumn<E>(n: u32, column: string, list: HalLists.View<E>, wild: u32)
    requires '.' !in column && column !in LLID_COLUMNS && 'm' !in column
    ensures LlidReply(LlidPath(n, column), list, wild) ==
            if n == 0 || n > LLID_ROWS_ANSWERED then InvalidInput
            else
              match HalLists.EntryAt(list, n - 1)
              case None => NoSuchElement
              case Some(e) => NoColumn(e)
  {
    var path := LlidPath(n, column);
    LlidHasNoM(0);
    NoCharacter(BASE + LLID_PREFIX, n, column, 'm');
    assert "LLIDNumberOfEntries"[6] == 'm';
    AbsentCharacter(path, "LLIDNumberOfEntries", 'm');
    DotsOfBase(LLID_PREFIX);
    PrefixReadsBack(BASE, LLID_PREFIX, n, column);
    InstanceReadsBack(BASE + LLID_PREFIX, n, column, wild);
    LlidColumnsProper();
    forall j | 0 <= j < |LLID_COLUMNS|
      ensures !EndsWith(path, "." + LLID_COLUMNS[j])
    {
      assert LLID_COLUMNS[j] in LLID_COLUMNS;
      SuffixIdentifiesColumn(BASE + LLID_PREFIX + Decimal(n), column, LLID_COLUMNS[j]);
    }
    ColumnOfNone(path, LLID_COLUMNS);
  }

  /** Behind the prefix of a table but without a number, no row is meant. */
  lemma NoInstance<E>(rest: string, list: HalLists.View<E>, wild: u32)
    requires StartsNoNumber(rest) && 'm' !in rest
    ensures LlidReply(BASE + LLID_PREFIX + rest, list, wild) == InvalidInput
  {
    var head := BASE + LLID_PREFIX;
    var path := head + rest;
    LlidHasNoM(0);
    assert "LLIDNumberOfEntries"[6] == 'm';
    AbsentCharacter(path, "LLIDNumberOfEntries", 'm');
    assert path[|head|..] == rest;
    DotsOfBase(LLID_PREFIX);
    FoundBehind(BASE, LLID_PREFIX, rest);
  }

  lemma FoundBehind(front: string, prefix: string, rest: string)
    requires |prefix| >= 2 && prefix[0] == '.'
    requires forall j | 0 <= j < |front| :: front[j] == '.' ==> (front + prefix)[j + 1] != prefix[1]
    ensures FindFrom(front + prefix + rest, prefix, 0) == Some(|front|)
  {
    var head := front + prefix;
    var path := head + rest;
    assert path[|front|..|front| + |prefix|] == prefix;
    forall j | 0 <= j < |front|
      ensures path[j] == '.' ==> path[j + 1] != prefix[1]
    {
      assert path[j] == front[j] && path[j + 1] == head[j + 1];
    }
    FirstOccurrence(path, prefix, |front|);
  }

  /** Likewise for the VEIP handler, on a path that holds neither of its columns. */
  lemma UnknownVeipColumn(n: u32, column: string, rows: seq<RowTables.Row>, list: seq<Interfaces.Info>,
                          nameLength: nat, wild: u32)
    requires var path := VeipPath(n, column);
             && !Contains(path, ".Name") && !Contains(path, ".Status")
             && !Contains(path, "VEIP_InterfaceNumberOfEntries")
    ensures VeipReply(VeipPath(n, column), rows, list, nameLength, wild) ==
            if n == 0 || n > |rows| then InvalidInput
            else if !rows[n - 1].registered then NoSuchElement
            else
              match Interfaces.Lookup(list, rows[n - 1].name, nameLength)
              case None => NoSuchElement
              case Some(info) => NoColumn(info)
  {
    InstanceReadsBack(BASE + VEIP_PREFIX, n, column, wild);
    assert BASE + VEIP_PREFIX <= VeipPath(n, column);
  }
}
