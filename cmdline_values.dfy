// The value readers of the command-line parser (src/cmdline/parser.c):
// to_lowercase, the (name, key) tables and get_key_from_name, validate_range
// and parse_text_or_int.
//
// Where the C code reports a failure by returning -1 and raising the caller's
// `error_occured` flag, the specifications return None; the methods return
// the C value together with a `failed` flag.

module CmdlineValues {
  import opened Outcomes
  import opened CLib
  import Ipv4

  // ===== to_lowercase =====

  /** to_lowercase: a fresh copy of s with every character passed through tolower. */
  method ToLowercase(s: string) returns (r: string)
    ensures r == Lower(s)
  {
    var buf := new char[|s|](i requires 0 <= i < |s| => s[i]);
    var p := 0;
    while p < buf.Length
      invariant 0 <= p <= buf.Length == |s|
      invariant buf[..p] == Lower(s)[..p]
      invariant buf[p..] == s[p..]
    {
      buf[p] := ToLower(buf[p]);
      p := p + 1;
    }
    r := buf[..];
  }

  // ===== name -> key tables =====

  datatype NameKey = NameKey(name: string, key: int)

  /** IP_PROTOCOLS: the protocol numbers of ip_proto_t. */
  const IP_PROTOCOLS: seq<NameKey> :=
    [NameKey("ip", 0), NameKey("icmp", 1), NameKey("tcp", 6), NameKey("udp", 17)]

  /** IP_TOS_PREC_CODES: the eight precedence levels, 0..7 in order. */
  const IP_TOS_PREC_CODES: seq<NameKey> := PREC_LOW + PREC_HIGH

  const PREC_LOW: seq<NameKey> :=
    [NameKey("routine", 0), NameKey("priority", 1), NameKey("immediate", 2), NameKey("flash", 3)]

  const PREC_HIGH: seq<NameKey> :=
    [NameKey("override", 4), NameKey("critical", 5), NameKey("internetwork", 6), NameKey("network", 7)]

  /** IP_ECN_CODES */
  const IP_ECN_CODES: seq<NameKey> :=
    [NameKey("not", 0), NameKey("ect1", 1), NameKey("ect0", 2), NameKey("ce", 3)]

  /** IP_DSCP_CODES: the class selectors ... */
  const DSCP_SELECTORS: seq<NameKey> :=
    [NameKey("df", 0), NameKey("cs0", 0), NameKey("cs1", 8), NameKey("cs2", 16),
     NameKey("cs3", 24), NameKey("cs4", 32), NameKey("cs5", 40), NameKey("cs6", 48),
     NameKey("cs7", 56)]

  /** ... the assured-forwarding classes ... */
  const AF_LOW: seq<NameKey> :=
    [NameKey("af11", 10), NameKey("af12", 12), NameKey("af13", 14),
     NameKey("af21", 18), NameKey("af22", 20), NameKey("af23", 22)]
  const AF_HIGH: seq<NameKey> :=
    [NameKey("af31", 26), NameKey("af32", 28), NameKey("af33", 30),
     NameKey("af41", 34), NameKey("af42", 36), NameKey("af43", 38)]
  const DSCP_ASSURED: seq<NameKey> := AF_LOW + AF_HIGH

  /** ... and expedited forwarding, voice-admit and lower effort. */
  const DSCP_OTHERS: seq<NameKey> :=
    [NameKey("ef", 46), NameKey("va", 44), NameKey("le", 1)]

  const IP_DSCP_CODES: seq<NameKey> := DSCP_SELECTORS + DSCP_ASSURED + DSCP_OTHERS

  /** The row of IP_PROTOCOLS that names p. */
  function ProtocolRow(p: Ipv4.Protocol): (i: nat)
    ensures i < |IP_PROTOCOLS| && IP_PROTOCOLS[i].key == Ipv4.ProtocolCode(p) as int
  {
    match p
    case ProtoIp => 0 case ProtoIcmp => 1 case ProtoTcp => 2 case ProtoUdp => 3
  }

  /** The row of IP_DSCP_CODES that names d. */
  function DscpRow(d: Ipv4.Dscp): (i: nat)
    ensures i < |IP_DSCP_CODES| && IP_DSCP_CODES[i].key == Ipv4.DscpCode(d)
  {
    match d
    case DF => 0 case CS0 => 1 case CS1 => 2 case CS2 => 3 case CS3 => 4
    case CS4 => 5 case CS5 => 6 case CS6 => 7 case CS7 => 8
    case AF11 => 9 case AF12 => 10 case AF13 => 11 case AF21 => 12
    case AF22 => 13 case AF23 => 14 case AF31 => 15 case AF32 => 16
    case AF33 => 17 case AF41 => 18 case AF42 => 19 case AF43 => 20
    case EF => 21 case VA => 22 case LE => 23
  }

  // ===== get_key_from_name =====

  /** The form in which names are compared. */
  function Folded(s: string, caseInsensitive: bool): string
  {
    if caseInsensitive then Lower(s) else s
  }

  /** The index of the first entry whose name equals the value (in ASCII lower
      case when caseInsensitive). */
  function FirstMatch(table: seq<NameKey>, value: string, caseInsensitive: bool): (r: Option<nat>)
    ensures r.Some? ==>
              && r.value < |table|
              && Folded(table[r.value].name, caseInsensitive) == Folded(value, caseInsensitive)
              && forall i :: 0 <= i < r.value ==> Folded(table[i].name, caseInsensitive) != Folded(value, caseInsensitive)
    ensures r.None? <==> forall i :: 0 <= i < |table| ==> Folded(table[i].name, caseInsensitive) != Folded(value, caseInsensitive)
  {
    if table == [] then None
    else if Folded(table[0].name, caseInsensitive) == Folded(value, caseInsensitive) then Some(0)
    else
      match FirstMatch(table[1..], value, caseInsensitive)
      case None => None
      case Some(i) => Some(i + 1)
  }

  /** The key get_key_from_name yields, or None when it reports an error. */
  function KeyOf(table: seq<NameKey>, value: string, caseInsensitive: bool): Option<int>
  {
    match FirstMatch(table, value, caseInsensitive)
    case None => None
    case Some(i) => Some(table[i].key)
  }

  /** The names of the table separated by ", ", with no trailing separator:
      the list of valid entries shown to the user. */
  function NameList(table: seq<NameKey>): string
  {
    if table == [] then ""
    else if |table| == 1 then table[0].name
    else NameList(table[..|table| - 1]) + ", " + table[|table| - 1].name
  }

  /** The length the C code reserves for that list (its buffer is one byte more,
      for the terminating NUL). */
  function NameListBudget(table: seq<NameKey>): nat
  {
    if table == [] then 0 else NameListBudget(table[..|table| - 1]) + |table[|table| - 1].name| + 2
  }

  /** The list always fits its buffer: it is exactly two characters shorter than
      the reserved length (the separator the last name does not get). */
  lemma {:induction false} NameListFits(table: seq<NameKey>)
    ensures table != [] ==> |NameList(table)| + 2 == NameListBudget(table)
    ensures table == [] ==> NameList(table) == "" && NameListBudget(table) == 0
    decreases |table|
  {
    if |table| > 1 {
      NameListFits(table[..|table| - 1]);
    } else if |table| == 1 {
      assert table[..0] == [];
    }
  }

  /** get_key_from_name: the key of the first entry whose name equals value
      (both lower-cased when caseInsensitive); otherwise -1 with `failed` set,
      after building the ", "-separated list of valid names for the message. */
  method GetKeyFromName(table: seq<NameKey>, value: string, caseInsensitive: bool)
    returns (key: int, failed: bool, validOptions: string)
    ensures KeyOf(table, value, caseInsensitive).Some? ==>
      !failed && key == KeyOf(table, value, caseInsensitive).value
    ensures KeyOf(table, value, caseInsensitive).None? ==>
      failed && key == -1 && validOptions == NameList(table)
  {
    var comparisonValue := value;
    if caseInsensitive {
      comparisonValue := ToLowercase(value);
    }
    var i := 0;
    while i < |table|
      invariant 0 <= i <= |table|
      invariant forall k :: 0 <= k < i ==> Folded(table[k].name, caseInsensitive) != Folded(value, caseInsensitive)
    {
      var comparisonName := table[i].name;
      if caseInsensitive {
        comparisonName := ToLowercase(table[i].name);
      }
      if comparisonName == comparisonValue {
        FirstMatchIsAt(table, value, caseInsensitive, i);
        return table[i].key, false, "";
      }
      i := i + 1;
    }

    validOptions := "";
    i := 0;
    while i < |table|
      invariant 0 <= i <= |table|
      invariant validOptions == NameList(table[..i]) + (if 0 < i < |table| then ", " else "")
    {
      assert table[..i + 1][..i] == table[..i];
      validOptions := validOptions + table[i].name;
      if i < |table| - 1 {
        validOptions := validOptions + ", ";
      }
      i := i + 1;
    }
    assert table[..|table|] == table;
    return -1, true, validOptions;
  }

  lemma FirstMatchIsAt(table: seq<NameKey>, value: string, caseInsensitive: bool, i: nat)
    requires i < |table|
    requires Folded(table[i].name, caseInsensitive) == Folded(value, caseInsensitive)
    requires forall k :: 0 <= k < i ==> Folded(table[k].name, caseInsensitive) != Folded(value, caseInsensitive)
    ensures FirstMatch(table, value, caseInsensitive) == Some(i)
  {
  }

  /** With case folding, a lookup does not care how the value is capitalised. */
  lemma KeyOfIgnoresCase(table: seq<NameKey>, value: string, other: string)
    requires Lower(value) == Lower(other)
    ensures KeyOf(table, value, true) == KeyOf(table, other, true)
  {
    FirstMatchSameFold(table, value, other);
  }

  lemma {:induction false} FirstMatchSameFold(table: seq<NameKey>, value: string, other: string)
    requires Lower(value) == Lower(other)
    ensures FirstMatch(table, value, true) == FirstMatch(table, other, true)
    decreases |table|
  {
    if table != [] {
      FirstMatchSameFold(table[1..], value, other);
    }
  }

  /** No two entries share a name. */
  predicate DistinctNames(table: seq<NameKey>)
  {
    forall i, j :: 0 <= i < j < |table| ==> table[i].name != table[j].name
  }

  /** Every name is written in lower case already. */
  predicate LowerCaseNames(table: seq<NameKey>)
  {
    forall i :: 0 <= i < |table| ==> forall k :: 0 <= k < |table[i].name| ==> !IsUpper(table[i].name[k])
  }

  /** In a table of distinct lower-case names, a case-insensitive lookup of any
      spelling of a name finds that name's own key: no entry shadows another. */
  lemma LookupFindsEachName(table: seq<NameKey>, value: string, i: nat)
    requires DistinctNames(table) && LowerCaseNames(table)
    requires i < |table| && Lower(value) == table[i].name
    ensures KeyOf(table, value, true) == Some(table[i].key)
  {
    forall k | 0 <= k < |table|
      ensures Folded(table[k].name, true) == table[k].name
    {
      LowerIdempotent(table[k].name);
    }
    LowerIdempotent(value);
  }

  lemma LowerCaseConcat(x: seq<NameKey>, y: seq<NameKey>)
    requires LowerCaseNames(x) && LowerCaseNames(y)
    ensures LowerCaseNames(x + y)
  {
    forall i | 0 <= i < |x + y|
      ensures forall k :: 0 <= k < |(x + y)[i].name| ==> !IsUpper((x + y)[i].name[k])
    {
      if i >= |x| {
        assert (x + y)[i] == y[i - |x|];
      }
    }
  }

  /** No name of x is a name of y. */
  predicate NamesApart(x: seq<NameKey>, y: seq<NameKey>)
  {
    forall i, j :: 0 <= i < |x| && 0 <= j < |y| ==> x[i].name != y[j].name
  }

  lemma DistinctConcat(x: seq<NameKey>, y: seq<NameKey>)
    requires DistinctNames(x) && DistinctNames(y) && NamesApart(x, y)
    ensures DistinctNames(x + y)
  {
    forall i, j | 0 <= i < j < |x + y|
      ensures (x + y)[i].name != (x + y)[j].name
    {
      if j >= |x| {
        assert (x + y)[j] == y[j - |x|];
        if i >= |x| {
          assert (x + y)[i] == y[i - |x|];
        }
      }
    }
  }

  /** Every name of the table has a character at position p, and it is one of cs. */
  predicate CharsAt(table: seq<NameKey>, p: nat, cs: set<char>)
  {
    forall i :: 0 <= i < |table| ==> |table[i].name| > p && table[i].name[p] in cs
  }

  lemma ApartByCharAt(x: seq<NameKey>, y: seq<NameKey>, p: nat, xs: set<char>, ys: set<char>)
    requires CharsAt(x, p, xs) && CharsAt(y, p, ys) && xs !! ys
    ensures NamesApart(x, y)
  {
    forall i, j | 0 <= i < |x| && 0 <= j < |y|
      ensures x[i].name != y[j].name
    {
      assert x[i].name[p] in xs && y[j].name[p] in ys;
    }
  }

  lemma CharsAtConcat(x: seq<NameKey>, y: seq<NameKey>, p: nat, xs: set<char>, ys: set<char>)
    requires CharsAt(x, p, xs) && CharsAt(y, p, ys)
    ensures CharsAt(x + y, p, xs + ys)
  {
    forall i | 0 <= i < |x + y|
      ensures |(x + y)[i].name| > p && (x + y)[i].name[p] in xs + ys
    {
      if i >= |x| {
        assert (x + y)[i] == y[i - |x|];
      }
    }
  }

  /** The four tables satisfy both conditions. */
  lemma ProtocolNamesResolve()
    ensures DistinctNames(IP_PROTOCOLS) && LowerCaseNames(IP_PROTOCOLS)
  {
  }

  // One fact per lemma: each is a small proof about one literal table.
  lemma PrecLowLower() ensures LowerCaseNames(PREC_LOW) {}
  lemma PrecLowDistinct() ensures DistinctNames(PREC_LOW) {}
  lemma PrecHighLower() ensures LowerCaseNames(PREC_HIGH) {}
  lemma PrecHighDistinct() ensures DistinctNames(PREC_HIGH) {}
  lemma PrecHalvesApart() ensures NamesApart(PREC_LOW, PREC_HIGH) {}

  lemma PrecedenceNamesResolve()
    ensures DistinctNames(IP_TOS_PREC_CODES) && LowerCaseNames(IP_TOS_PREC_CODES)
  {
    PrecLowLower();
    PrecLowDistinct();
    PrecHighLower();
    PrecHighDistinct();
    PrecHalvesApart();
    LowerCaseConcat(PREC_LOW, PREC_HIGH);
    DistinctConcat(PREC_LOW, PREC_HIGH);
  }

  lemma EcnNamesResolve()
    ensures DistinctNames(IP_ECN_CODES) && LowerCaseNames(IP_ECN_CODES)
  {
  }

  lemma SelectorsLower() ensures LowerCaseNames(DSCP_SELECTORS) {}
  lemma SelectorsDistinct() ensures DistinctNames(DSCP_SELECTORS) {}
  lemma SelectorsStart() ensures CharsAt(DSCP_SELECTORS, 0, {'c', 'd'}) {}
  lemma AfLowLower() ensures LowerCaseNames(AF_LOW) {}
  lemma AfLowDistinct() ensures DistinctNames(AF_LOW) {}
  lemma AfLowClass() ensures CharsAt(AF_LOW, 2, {'1', '2'}) {}
  lemma AfHighLower() ensures LowerCaseNames(AF_HIGH) {}
  lemma AfHighDistinct() ensures DistinctNames(AF_HIGH) {}
  lemma AfHighClass() ensures CharsAt(AF_HIGH, 2, {'3', '4'}) {}
  lemma AssuredStart() ensures CharsAt(DSCP_ASSURED, 0, {'a'}) {}
  lemma OthersLower() ensures LowerCaseNames(DSCP_OTHERS) {}
  lemma OthersDistinct() ensures DistinctNames(DSCP_OTHERS) {}
  lemma OthersStart() ensures CharsAt(DSCP_OTHERS, 0, {'e', 'v', 'l'}) {}

  lemma AssuredNames()
    ensures LowerCaseNames(DSCP_ASSURED) && DistinctNames(DSCP_ASSURED)
  {
    AfLowLower();
    AfLowDistinct();
    AfLowClass();
    AfHighLower();
    AfHighDistinct();
    AfHighClass();
    LowerCaseConcat(AF_LOW, AF_HIGH);
    ApartByCharAt(AF_LOW, AF_HIGH, 2, {'1', '2'}, {'3', '4'});
    DistinctConcat(AF_LOW, AF_HIGH);
  }

  lemma DscpNamesResolve()
    ensures DistinctNames(IP_DSCP_CODES) && LowerCaseNames(IP_DSCP_CODES)
  {
    SelectorsLower();
    SelectorsDistinct();
    SelectorsStart();
    AssuredNames();
    AssuredStart();
    OthersLower();
    OthersDistinct();
    OthersStart();
    LowerCaseConcat(DSCP_SELECTORS, DSCP_ASSURED);
    LowerCaseConcat(DSCP_SELECTORS + DSCP_ASSURED, DSCP_OTHERS);
    ApartByCharAt(DSCP_SELECTORS, DSCP_ASSURED, 0, {'c', 'd'}, {'a'});
    DistinctConcat(DSCP_SELECTORS, DSCP_ASSURED);
    CharsAtConcat(DSCP_SELECTORS, DSCP_ASSURED, 0, {'c', 'd'}, {'a'});
    ApartByCharAt(DSCP_SELECTORS + DSCP_ASSURED, DSCP_OTHERS, 0, {'c', 'd'} + {'a'}, {'e', 'v', 'l'});
    DistinctConcat(DSCP_SELECTORS + DSCP_ASSURED, DSCP_OTHERS);
  }

  // ===== validate_range =====

  /** validate_range: the value of a base-10 numeral that strtol consumes to the
      end without a range error and that lies in [lo, hi]; None where the C code
      sets the error flag and returns -1. */
  function ValidateRange(s: string, lo: int, hi: int): (r: Option<int>)
    ensures r.Some? ==> lo <= r.value <= hi
  {
    var c := Strtol(s);
    if c.rangeError || c.end != |s| || c.value < lo || c.value > hi then None
    else Some(c.value)
  }

  /** Every number in range is accepted when written out in decimal. */
  lemma ValidateRangeDecimal(n: nat, lo: int, hi: int)
    requires lo <= n <= hi && n <= LONG_MAX
    ensures ValidateRange(Decimal(n), lo, hi) == Some(n)
  {
    StrtolDecimal(n);
  }

  /** A numeral followed by anything that is not a digit is rejected. */
  lemma ValidateRangeRejectsTrailing(n: nat, c: char, lo: int, hi: int)
    requires n <= LONG_MAX && !IsDigit(c)
    ensures ValidateRange(Decimal(n) + [c], lo, hi) == None
  {
    var s := Decimal(n) + [c];
    assert SkipSpace(s, 0) == 0;
    DigitRunStops(Decimal(n), c);
    assert s[..|Decimal(n)|] == Decimal(n);
    DecimalRoundTrip(n);
  }

  lemma DigitRunStops(d: string, c: char)
    requires AllDigits(d) && !IsDigit(c)
    ensures DigitRun(d + [c], 0) == |d|
  {
    DigitRunPrefix(d + [c], 0, |d|);
  }

  lemma {:induction false} DigitRunPrefix(s: string, i: nat, k: nat)
    requires i <= k < |s| && AllDigits(s[i..k]) && !IsDigit(s[k])
    ensures DigitRun(s, i) == k
    decreases k - i
  {
    if i < k {
      assert s[i] == s[i..k][0];
      assert s[i + 1..k] == s[i..k][1..];
      DigitRunPrefix(s, i + 1, k);
    }
  }

  /** strtol converts nothing in the empty string and leaves the end pointer on
      its terminating NUL, so "" passes as 0. */
  lemma ValidateRangeEmptyIsZero(lo: int, hi: int)
    requires lo <= 0 <= hi
    ensures ValidateRange("", lo, hi) == Some(0)
  {
  }

  /** A string of blanks converts nothing either, but leaves the end pointer on
      a blank, so it is rejected. */
  lemma ValidateRangeRejectsBlanks(s: string, lo: int, hi: int)
    requires s != [] && forall i :: 0 <= i < |s| ==> IsSpace(s[i])
    ensures ValidateRange(s, lo, hi) == None
  {
    assert SkipSpace(s, 0) == |s|;
  }

  // ===== parse_text_or_int =====

  /** parse_text_or_int: a numeral (first character a digit) goes through
      validate_range, anything else through the name lookup. */
  function TextOrInt(table: seq<NameKey>, s: string, caseInsensitive: bool, lo: int, hi: int): Option<int>
  {
    if |s| > 0 && IsDigit(s[0]) then ValidateRange(s, lo, hi) else KeyOf(table, s, caseInsensitive)
  }

  /** Every key of the table lies in [lo, hi]. */
  predicate KeysWithin(table: seq<NameKey>, lo: int, hi: int)
  {
    forall i :: 0 <= i < |table| ==> lo <= table[i].key <= hi
  }

  /** The name lookup is not range-checked, so the result stays in range only
      because every table's keys do. */
  lemma TextOrIntWithin(table: seq<NameKey>, s: string, caseInsensitive: bool, lo: int, hi: int)
    requires KeysWithin(table, lo, hi)
    ensures TextOrInt(table, s, caseInsensitive, lo, hi).Some? ==>
      lo <= TextOrInt(table, s, caseInsensitive, lo, hi).value <= hi
  {
  }

  lemma TablesWithinBounds()
    ensures KeysWithin(IP_PROTOCOLS, 0, 255)
    ensures KeysWithin(IP_TOS_PREC_CODES, 0, 7)
    ensures KeysWithin(IP_ECN_CODES, 0, 3)
    ensures KeysWithin(IP_DSCP_CODES, 0, 63)
  {
  }

  /** A number written in decimal is read as that number, never looked up. */
  lemma TextOrIntDecimal(table: seq<NameKey>, n: nat, caseInsensitive: bool, lo: int, hi: int)
    requires lo <= n <= hi && n <= LONG_MAX
    ensures TextOrInt(table, Decimal(n), caseInsensitive, lo, hi) == Some(n)
  {
    ValidateRangeDecimal(n, lo, hi);
  }

  /** parse_text_or_int as the C code runs it. */
  method ParseTextOrInt(table: seq<NameKey>, s: string, caseInsensitive: bool, lo: int, hi: int)
    returns (result: int, failed: bool)
    ensures failed <==> TextOrInt(table, s, caseInsensitive, lo, hi).None?
    ensures !failed ==> result == TextOrInt(table, s, caseInsensitive, lo, hi).value
    ensures failed ==> result == -1
  {
    if |s| > 0 && IsDigit(s[0]) {
      var r := ValidateRange(s, lo, hi);
      failed := r.None?;
      result := if r.Some? then r.value else -1;
    } else {
      var validOptions;
      result, failed, validOptions := GetKeyFromName(table, s, caseInsensitive);
    }
  }
}
