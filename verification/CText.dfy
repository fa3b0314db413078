/** The C text routines the manager relies on: printing with "%u", scanning
    with atoi and "%u", bounded copies, bounded comparison and substring search.
    A C string is modelled as the sequence of its characters before the NUL. */
module CText {

  datatype Option<+T> = None | Some(value: T)

  const TWO31: int := 0x8000_0000
  const TWO32: int := 0x1_0000_0000

  type u32 = x: int | 0 <= x < TWO32

  function Min(a: nat, b: nat): nat { if a <= b then a else b }

  /** What a uint32_t keeps of an integer. */
  function Wrap32(x: int): (r: u32)
    ensures 0 <= x < TWO32 ==> r == x
    ensures TWO32 <= x < 2 * TWO32 ==> r == x - TWO32
    ensures -TWO32 <= x < 0 ==> r == x + TWO32
  {
    x % TWO32
  }

  lemma Associative<T>(a: seq<T>, b: seq<T>, c: seq<T>)
    ensures (a + b) + c == a + (b + c)
  {
  }

  // ------------------------------------------------------------ decimal text

  predicate IsDigit(c: char) { '0' <= c <= '9' }

  function DigitChar(d: nat): (c: char)
    requires d < 10
    ensures IsDigit(c) && DigitValue(c) == d
  {
    '0' + d as char
  }

  function DigitValue(c: char): (d: nat)
    ensures d < 10
  {
    if IsDigit(c) then c as int - '0' as int else 0
  }

  ghost predicate AllDigits(s: string) { forall i | 0 <= i < |s| :: IsDigit(s[i]) }

  /** The text snprintf produces for "%u". */
  function Decimal(n: nat): (s: string)
    ensures s != [] && AllDigits(s)
  {
    if n < 10 then [DigitChar(n)] else Decimal(n / 10) + [DigitChar(n % 10)]
  }

  /** The number a run of decimal digits denotes. */
  function ValueOf(s: string): nat
  {
    if s == [] then 0 else ValueOf(s[..|s| - 1]) * 10 + DigitValue(s[|s| - 1])
  }

  lemma {:induction false} ValueOfDecimal(n: nat)
    ensures ValueOf(Decimal(n)) == n
  {
    if n >= 10 {
      ValueOfDecimal(n / 10);
      var s := Decimal(n);
      assert s[..|s| - 1] == Decimal(n / 10);
    }
  }

  /** Printing is in base ten with the usual digits. */
  lemma DecimalIsBaseTen(n: nat)
    ensures n < 10 ==> Decimal(n) == ["0123456789"[n]]
    ensures n >= 10 ==> Decimal(n) == Decimal(n / 10) + Decimal(n % 10)
  {
    if n < 10 { DigitIs(n); }
  }

  lemma DigitIs(d: nat)
    requires d < 10
    ensures DigitChar(d) == "0123456789"[d]
  {
    if d == 0 {} else if d == 1 {} else if d == 2 {} else if d == 3 {} else if d == 4 {}
    else if d == 5 {} else if d == 6 {} else if d == 7 {} else if d == 8 {} else { assert d == 9; }
  }

  /** And without leading zeros. */
  lemma {:induction false} NoLeadingZero(n: nat)
    requires n > 0
    ensures Decimal(n)[0] != '0'
  {
    if n >= 10 { NoLeadingZero(n / 10); }
  }

  function Pow10(k: nat): (p: nat)
    ensures p > 0
  {
    if k == 0 then 1 else 10 * Pow10(k - 1)
  }

  /** A number below 10^k prints in at most k characters. */
  lemma {:induction false} DecimalLength(n: nat, k: nat)
    requires k > 0 && n < Pow10(k)
    ensures |Decimal(n)| <= k
  {
    if n >= 10 {
      assert k > 1 by { assert Pow10(1) == 10 * Pow10(0); }
      DecimalLength(n / 10, k - 1);
    }
  }

  /** Every uint32_t prints in at most ten characters. */
  lemma DecimalFits(n: u32)
    ensures |Decimal(n)| <= 10
  {
    assert Pow10(5) == 100000;
    assert Pow10(10) == 10_000_000_000;
    DecimalLength(n, 10);
  }

  /** The length of the leading run of digits. */
  function DigitRun(s: string): (k: nat)
    ensures k <= |s|
  {
    if s != [] && IsDigit(s[0]) then 1 + DigitRun(s[1..]) else 0
  }

  lemma {:induction false} DigitRunIsDigits(s: string)
    ensures AllDigits(s[..DigitRun(s)]) && (DigitRun(s) < |s| ==> !IsDigit(s[DigitRun(s)]))
  {
    if s != [] && IsDigit(s[0]) {
      DigitRunIsDigits(s[1..]);
      assert s[..DigitRun(s)] == [s[0]] + s[1..][..DigitRun(s[1..])];
    }
  }

  lemma DigitRunUnique(s: string, k: nat)
    requires k <= |s| && AllDigits(s[..k]) && (k < |s| ==> !IsDigit(s[k]))
    ensures DigitRun(s) == k
  {
    var r := DigitRun(s);
    DigitRunIsDigits(s);
    assert forall i | 0 <= i < r :: IsDigit(s[..r][i]) && s[..r][i] == s[i];
    assert forall i | 0 <= i < k :: IsDigit(s[..k][i]) && s[..k][i] == s[i];
  }

  // ------------------------------------------------------------ scanning

  /** The outcome of converting text to a number; OutOfRange is a digit run
      beyond what the conversion can represent, where C promises no result. */
  datatype Scan = NoNumber | Number(value: int) | OutOfRange

  predicate IsSpace(c: char) { c == ' ' || '\t' <= c <= '\r' }

  function SkipSpace(s: string): string
  {
    if s != [] && IsSpace(s[0]) then SkipSpace(s[1..]) else s
  }

  /** The number made of the digits at the front of a text, if there are any. */
  function NumberAt(negative: bool, body: string): Option<int>
  {
    var k := DigitRun(body);
    if k == 0 then None else Some(if negative then -(ValueOf(body[..k]) as int) else ValueOf(body[..k]))
  }

  /** The signed number at the front of s after blanks, if there is one. */
  function SignedPrefix(s: string): Option<int>
  {
    var t := SkipSpace(s);
    if t != [] && (t[0] == '-' || t[0] == '+') then NumberAt(t[0] == '-', t[1..]) else NumberAt(false, t)
  }

  /** atoi: text without a number gives 0, numbers beyond int have no promised result. */
  function Atoi(s: string): Scan
  {
    match SignedPrefix(s)
    case None => Number(0)
    case Some(v) => if -TWO31 <= v < TWO31 then Number(v) else OutOfRange
  }

  /** sscanf with "%u": a negative number wraps, numbers beyond unsigned have no promised result. */
  function ScanUnsigned(s: string): Scan
  {
    match SignedPrefix(s)
    case None => NoNumber
    case Some(v) => if -TWO32 < v < TWO32 then Number(Wrap32(v)) else OutOfRange
  }

  /** Scanning stops exactly at the end of a printed number. */
  lemma PrefixOfDecimal(n: nat, rest: string)
    requires rest == [] || !IsDigit(rest[0])
    ensures SignedPrefix(Decimal(n) + rest) == Some(n)
  {
    var d := Decimal(n);
    var s := d + rest;
    assert IsDigit(d[0]) && s[0] == d[0];
    assert SkipSpace(s) == s;
    assert s[..|d|] == d;
    DigitRunUnique(s, |d|);
    ValueOfDecimal(n);
  }

  lemma SignedNumber(sign: char, body: string)
    requires sign == '-' || sign == '+'
    ensures SignedPrefix([sign] + body) == NumberAt(sign == '-', body)
  {
    var s := [sign] + body;
    SkipsNothing(s);
    assert s[1..] == body;
  }

  lemma SkipsNothing(s: string)
    requires s != [] && !IsSpace(s[0])
    ensures SkipSpace(s) == s
  {
  }

  lemma SkipsBlank(c: char, s: string)
    requires c in " \t\n\r"
    ensures SignedPrefix([c] + s) == SignedPrefix(s)
  {
    assert ([c] + s)[1..] == s;
  }

  /** Blanks and a sign in front of a number count. */
  lemma {:induction false} PrefixOfSigned(blanks: string, sign: char, n: nat, rest: string)
    requires forall i | 0 <= i < |blanks| :: blanks[i] in " \t\n\r"
    requires (sign == '-' || sign == '+') && (rest == [] || !IsDigit(rest[0]))
    ensures SignedPrefix(blanks + ([sign] + (Decimal(n) + rest))) == Some(if sign == '-' then -(n as int) else n)
  {
    var text := [sign] + (Decimal(n) + rest);
    if blanks == [] {
      var body := Decimal(n) + rest;
      assert body[..|Decimal(n)|] == Decimal(n);
      DigitRunUnique(body, |Decimal(n)|);
      ValueOfDecimal(n);
      SignedNumber(sign, body);
      assert blanks + text == text;
    } else {
      PrefixOfSigned(blanks[1..], sign, n, rest);
      SkipsBlank(blanks[0], blanks[1..] + text);
      assert blanks + text == [blanks[0]] + (blanks[1..] + text);
    }
  }

  /** Neither a digit nor a sign nor a blank comes first. */
  predicate StartsNoNumber(s: string)
  {
    s == [] || !('0' <= s[0] <= '9' || s[0] == '+' || s[0] == '-' || s[0] == ' ' || '\t' <= s[0] <= '\r')
  }

  /** Text that starts with no number gives 0. */
  lemma AtoiOfNoNumber(s: string)
    requires StartsNoNumber(s)
    ensures Atoi(s) == Number(0)
  {
  }

  /** "%u" followed by atoi is the identity below 2^31, and out of int's range from there on. */
  lemma AtoiOfDecimal(n: nat)
    ensures Atoi(Decimal(n)) == if n < TWO31 then Number(n) else OutOfRange
  {
    assert Decimal(n) + [] == Decimal(n);
    PrefixOfDecimal(n, []);
  }

  /** The limits of both conversions, for numbers of either sign. */
  lemma ScanLimits(n: nat)
    ensures Atoi(['-'] + Decimal(n)) == if n <= TWO31 then Number(-(n as int)) else OutOfRange
    ensures ScanUnsigned(Decimal(n)) == if n < TWO32 then Number(n) else OutOfRange
    ensures ScanUnsigned(['-'] + Decimal(n)) ==
            if n >= TWO32 then OutOfRange else Number(if n == 0 then 0 else TWO32 - n)
  {
    assert Decimal(n) + [] == Decimal(n);
    PrefixOfDecimal(n, []);
    PrefixOfSigned([], '-', n, []);
    assert [] + (['-'] + (Decimal(n) + [])) == ['-'] + Decimal(n);
  }

  /** "%u" followed by "%u" is the identity on every uint32_t, whatever non-digit follows. */
  lemma ScanOfDecimal(n: u32, rest: string)
    requires rest == [] || !IsDigit(rest[0])
    ensures ScanUnsigned(Decimal(n) + rest) == Number(n)
  {
    PrefixOfDecimal(n, rest);
  }

  // ------------------------------------------------------------ copying and comparing

  /** strncpy of size - 1 characters followed by a terminating NUL. */
  function Truncate(s: string, size: nat): (t: string)
    requires size > 0
    ensures t <= s && |t| == Min(|s|, size - 1)
  {
    if |s| < size then s else s[..size - 1]
  }

  /** strncmp(a, b, n) == 0: compare character by character until a difference,
      a NUL on both sides or n characters. */
  predicate SameName(a: string, b: string, n: nat)
    decreases n
  {
    if n == 0 then true
    else if a == [] || b == [] then a == b
    else a[0] == b[0] && SameName(a[1..], b[1..], n - 1)
  }

  /** The part of a name that strncmp with bound n looks at. */
  function Key(s: string, n: nat): string { if |s| <= n then s else s[..n] }

  /** Two names compare equal exactly when their keys are equal. */
  lemma {:induction false} SameNameIsSameKey(a: string, b: string, n: nat)
    ensures SameName(a, b, n) <==> Key(a, n) == Key(b, n)
    decreases n
  {
    if n > 0 && a != [] && b != [] {
      SameNameIsSameKey(a[1..], b[1..], n - 1);
      KeyStep(a, n);
      KeyStep(b, n);
      if Key(a, n) == Key(b, n) {
        assert Key(a, n)[1..] == Key(b, n)[1..];
        assert Key(a, n)[0] == Key(b, n)[0];
      }
    }
  }

  /** That is, when the names are equal or both go on for n characters and agree in those. */
  lemma SameNameMeans(a: string, b: string, n: nat)
    ensures SameName(a, b, n) <==> a == b || (n <= |a| && n <= |b| && a[..n] == b[..n])
  {
    SameNameIsSameKey(a, b, n);
  }

  lemma KeyStep(a: string, n: nat)
    requires n > 0 && a != []
    ensures Key(a, n) == [a[0]] + Key(a[1..], n - 1)
    ensures Key(a, n)[1..] == Key(a[1..], n - 1)
  {
    assert a == [a[0]] + a[1..];
  }

  // ------------------------------------------------------------ substrings

  predicate OccursAt(s: string, pat: string, k: nat)
  {
    k + |pat| <= |s| && s[k..k + |pat|] == pat
  }

  /** strstr: the first position from k on where pat occurs. */
  function FindFrom(s: string, pat: string, k: nat): (r: Option<nat>)
    requires k <= |s|
    ensures r.Some? ==> k <= r.value && r.value + |pat| <= |s|
    decreases |s| - k
  {
    if OccursAt(s, pat, k) then Some(k)
    else if k == |s| then None
    else FindFrom(s, pat, k + 1)
  }

  lemma {:induction false} FindFromIsFirst(s: string, pat: string, k: nat)
    requires k <= |s|
    ensures var r := FindFrom(s, pat, k);
            && (r.Some? ==> OccursAt(s, pat, r.value) && forall j | k <= j < r.value :: !OccursAt(s, pat, j))
            && (r.None? ==> forall j: nat | k <= j :: !OccursAt(s, pat, j))
    decreases |s| - k
  {
    if !OccursAt(s, pat, k) && k < |s| { FindFromIsFirst(s, pat, k + 1); }
  }

  predicate Contains(s: string, pat: string) { FindFrom(s, pat, 0).Some? }

  predicate EndsWith(s: string, suffix: string)
  {
    |suffix| <= |s| && s[|s| - |suffix|..] == suffix
  }

  /** A pattern holding a character the text lacks does not occur in it. */
  lemma AbsentCharacter(s: string, pat: string, c: char)
    requires c in pat && c !in s
    ensures !Contains(s, pat)
  {
    FindFromIsFirst(s, pat, 0);
    var i :| 0 <= i < |pat| && pat[i] == c;
    forall k: nat
      ensures !OccursAt(s, pat, k)
    {
      if k + |pat| <= |s| {
        assert s[k + i] != c;
        assert s[k..k + |pat|][i] != pat[i];
      }
    }
  }
}
