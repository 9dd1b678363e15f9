// The C library routines the option parsers lean on, stated as small
// specifications: <ctype.h> classification and tolower, base-10 strtol (on an
// LP64 host, so `long` is 64 bits), atoi, strtok over one delimiter, and the
// IPv4 dotted-quad readers inet_pton(AF_INET, ...) and inet_addr.
//
// A C string is a `string` (seq<char>) holding the characters before its
// terminating NUL: argv strings cannot contain a NUL, so "the character at
// the end pointer is '\0'" becomes "the end index equals the length".

module CLib {
  import opened Outcomes
  import opened Wire
  import opened Casts

  // ===== <ctype.h> in the "C" locale =====

  /** isspace: space, \t, \n, \v, \f, \r. */
  predicate IsSpace(c: char)
  {
    c == ' ' || c == '\t' || c == '\n' || c == '\U{0B}' || c == '\U{0C}' || c == '\r'
  }

  /** isdigit */
  predicate IsDigit(c: char)
  {
    '0' <= c <= '9'
  }

  predicate IsUpper(c: char)
  {
    'A' <= c <= 'Z'
  }

  /** tolower: maps 'A'..'Z' to 'a'..'z' and leaves every other character alone. */
  function ToLower(c: char): (r: char)
    ensures IsUpper(c) ==> r as int == c as int + 32 && 'a' <= r <= 'z'
    ensures !IsUpper(c) ==> r == c
    ensures !IsUpper(r)
  {
    if IsUpper(c) then (c as int + 32) as char else c
  }

  /** The string every character of which has been passed through tolower. */
  function Lower(s: string): string
  {
    seq(|s|, i requires 0 <= i < |s| => ToLower(s[i]))
  }

  /** Lower-casing twice is lower-casing once, and a string without capitals is
      its own lower-case form. */
  lemma LowerIdempotent(s: string)
    ensures Lower(Lower(s)) == Lower(s)
    ensures (forall i :: 0 <= i < |s| ==> !IsUpper(s[i])) ==> Lower(s) == s
  {
  }

  /** Two strings are equal in lower case exactly when they agree character by
      character up to ASCII case. */
  lemma LowerEqualIff(s: string, t: string)
    ensures Lower(s) == Lower(t) <==>
            |s| == |t| && forall i :: 0 <= i < |s| ==> ToLower(s[i]) == ToLower(t[i])
  {
    if Lower(s) == Lower(t) {
      forall i | 0 <= i < |s|
        ensures ToLower(s[i]) == ToLower(t[i])
      {
        assert Lower(s)[i] == Lower(t)[i];
      }
    }
  }

  // ===== decimal numerals =====

  function DigitValue(c: char): nat
    requires IsDigit(c)
  {
    c as int - '0' as int
  }

  function DigitChar(d: nat): (c: char)
    requires d < 10
    ensures IsDigit(c) && DigitValue(c) == d
  {
    ('0' as int + d) as char
  }

  predicate AllDigits(s: string)
  {
    forall i :: 0 <= i < |s| ==> IsDigit(s[i])
  }

  /** The value of a run of decimal digits, most significant first. */
  function DigitsValue(s: string): nat
    requires AllDigits(s)
  {
    if s == [] then 0 else DigitsValue(s[..|s| - 1]) * 10 + DigitValue(s[|s| - 1])
  }

  /** The canonical decimal rendering of n: no sign, no leading zero. */
  function Decimal(n: nat): (s: string)
    ensures |s| >= 1 && AllDigits(s)
    ensures s[0] == '0' ==> n == 0 && |s| == 1
    decreases n
  {
    if n < 10 then [DigitChar(n)] else Decimal(n / 10) + [DigitChar(n % 10)]
  }

  /** Reading back a rendered numeral gives the number. */
  lemma {:induction false} DecimalRoundTrip(n: nat)
    ensures DigitsValue(Decimal(n)) == n
    decreases n
  {
    if n >= 10 {
      var s := Decimal(n);
      assert s[..|s| - 1] == Decimal(n / 10);
      DecimalRoundTrip(n / 10);
    }
  }

  /** A numeral with no leading zero is the rendering of its own value. */
  lemma {:induction false} DecimalOfDigits(s: string)
    requires |s| >= 1 && AllDigits(s) && (s[0] == '0' ==> |s| == 1)
    ensures Decimal(DigitsValue(s)) == s
    decreases |s|
  {
    if |s| > 1 {
      var p := s[..|s| - 1];
      DecimalOfDigits(p);
      DigitsValueLeadingDigit(p);
      var n := DigitsValue(s);
      assert n / 10 == DigitsValue(p) && n % 10 == DigitValue(s[|s| - 1]);
    }
  }

  /** A numeral of two or more digits whose first digit is not 0 is at least 10. */
  lemma {:induction false} DigitsValueLeadingDigit(s: string)
    requires |s| >= 1 && AllDigits(s) && s[0] != '0'
    ensures DigitsValue(s) >= 1
    decreases |s|
  {
    if |s| > 1 {
      DigitsValueLeadingDigit(s[..|s| - 1]);
    }
  }

  // ===== strtol(s, &end, 10) =====

  const LONG_MAX: int := 0x7FFF_FFFF_FFFF_FFFF
  const LONG_MIN: int := -0x8000_0000_0000_0000

  /** The index of the first character at or after i that is not white space. */
  function SkipSpace(s: string, i: nat): (j: nat)
    requires i <= |s|
    ensures i <= j <= |s|
    ensures forall k :: i <= k < j ==> IsSpace(s[k])
    ensures j < |s| ==> !IsSpace(s[j])
    decreases |s| - i
  {
    if i < |s| && IsSpace(s[i]) then SkipSpace(s, i + 1) else i
  }

  /** The end of the run of digits that starts at i. */
  function DigitRun(s: string, i: nat): (j: nat)
    requires i <= |s|
    ensures i <= j <= |s|
    ensures AllDigits(s[i..j])
    ensures j < |s| ==> !IsDigit(s[j])
    decreases |s| - i
  {
    if i < |s| && IsDigit(s[i]) then DigitRun(s, i + 1) else i
  }

  /** What strtol reports: the (clamped) value, the index its end pointer is left
      at, and whether it set errno to ERANGE. */
  datatype Conversion = Conversion(value: int, end: nat, rangeError: bool)

  /** strtol with base 10: optional white space, an optional sign, then digits.
      Without digits nothing is converted and the end pointer stays at the start
      of the string; a value outside `long` is clamped and flags ERANGE. */
  function Strtol(s: string): (c: Conversion)
    ensures c.end <= |s|
    ensures LONG_MIN <= c.value <= LONG_MAX
  {
    var i := SkipSpace(s, 0);
    var neg := i < |s| && s[i] == '-';
    var j := if i < |s| && (s[i] == '+' || s[i] == '-') then i + 1 else i;
    var k := DigitRun(s, j);
    if k == j then Conversion(0, 0, false)
    else
      var m: int := DigitsValue(s[j..k]);
      var v: int := if neg then -m else m;
      if v > LONG_MAX then Conversion(LONG_MAX, k, true)
      else if v < LONG_MIN then Conversion(LONG_MIN, k, true)
      else Conversion(v, k, false)
  }

  /** strtol reads a rendered numeral back whole. */
  lemma StrtolDecimal(n: nat)
    requires n <= LONG_MAX
    ensures Strtol(Decimal(n)) == Conversion(n, |Decimal(n)|, false)
  {
    var s := Decimal(n);
    assert SkipSpace(s, 0) == 0;
    DigitRunAll(s, 0);
    assert s[0..|s|] == s;
    DecimalRoundTrip(n);
  }

  lemma {:induction false} DigitRunAll(s: string, i: nat)
    requires i <= |s| && AllDigits(s)
    ensures DigitRun(s, i) == |s|
    decreases |s| - i
  {
    if i < |s| {
      DigitRunAll(s, i + 1);
    }
  }

  // ===== atoi =====

  const INT_MIN: int := -0x8000_0000
  const TWO_32: int := 0x1_0000_0000

  /** The value of a `long` converted to a 32-bit `int` (two's complement). */
  function Int32(x: int): (r: int)
    ensures INT_MIN <= r < -INT_MIN
    ensures INT_MIN <= x < -INT_MIN ==> r == x
  {
    (x - INT_MIN) % TWO_32 + INT_MIN
  }

  /** atoi, as glibc defines it: (int) strtol(s, NULL, 10). */
  function Atoi(s: string): (r: int)
    ensures INT_MIN <= r < -INT_MIN
    ensures INT_MIN <= Strtol(s).value < -INT_MIN ==> r == Strtol(s).value
  {
    Int32(Strtol(s).value)
  }

  // ===== splitting on one delimiter =====

  /** The pieces between occurrences of d, empty pieces included. */
  function Split(s: string, d: char): (parts: seq<string>)
    ensures |parts| >= 1
    ensures forall p :: p in parts ==> d !in p
    decreases |s|
  {
    if d !in s then [s]
    else
      var k := IndexOf(s, d);
      [s[..k]] + Split(s[k + 1..], d)
  }

  /** The position of the first d in s. */
  function IndexOf(s: string, d: char): (k: nat)
    requires d in s
    ensures k < |s| && s[k] == d && d !in s[..k]
  {
    if s[0] == d then 0 else 1 + IndexOf(s[1..], d)
  }

  /** Splitting a string made of a piece without d, then d, then the rest. */
  lemma SplitCons(p: string, d: char, rest: string)
    requires d !in p
    ensures Split(p + [d] + rest, d) == [p] + Split(rest, d)
  {
    var s := p + [d] + rest;
    assert s[|p|] == d;
    IndexOfPrefix(p, d, rest);
    assert s[..|p|] == p && s[|p| + 1..] == rest;
  }

  lemma {:induction false} IndexOfPrefix(p: string, d: char, rest: string)
    requires d !in p
    ensures d in p + [d] + rest && IndexOf(p + [d] + rest, d) == |p|
    decreases |p|
  {
    var s := p + [d] + rest;
    assert s[|p|] == d;
    if p != [] {
      assert s[1..] == p[1..] + [d] + rest;
      IndexOfPrefix(p[1..], d, rest);
    }
  }

  /** The tokens strtok(s, d) returns one call after another: the non-empty
      pieces, so runs of delimiters and delimiters at either end are skipped. */
  function Tokens(s: string, d: char): (t: seq<string>)
    ensures forall p :: p in t ==> p != [] && d !in p
  {
    NonEmpty(Split(s, d))
  }

  function NonEmpty(ps: seq<string>): (r: seq<string>)
    ensures forall p :: p in r ==> p != [] && p in ps
  {
    if ps == [] then []
    else (if ps[0] == [] then [] else [ps[0]]) + NonEmpty(ps[1..])
  }

  // ===== IPv4 dotted quads =====

  /** A component inet_pton accepts: one to three digits, no leading zero,
      at most 255. */
  predicate Octet(p: string)
  {
    1 <= |p| <= 3 && AllDigits(p) && (p[0] == '0' ==> |p| == 1) && DigitsValue(p) <= 255
  }

  function OctetValue(p: string): (b: bv8)
    requires Octet(p)
    ensures b as int == DigitsValue(p)
  {
    SmallModulo(DigitsValue(p), 256);
    Cast8(DigitsValue(p))
  }

  /** inet_pton(AF_INET, s, &dst): exactly four dot-separated octets, each a
      decimal number 0..255 written without a leading zero. Some(address in host
      order, first octet in the top byte) when it returns 1, None when it
      returns 0. */
  function InetPton(s: string): (r: Option<bv32>)
    ensures r.Some? ==> |Split(s, '.')| == 4
  {
    var ps := Split(s, '.');
    if |ps| == 4 && Octet(ps[0]) && Octet(ps[1]) && Octet(ps[2]) && Octet(ps[3])
    then Some(U32At([OctetValue(ps[0]), OctetValue(ps[1]), OctetValue(ps[2]), OctetValue(ps[3])], 0))
    else None
  }

  /** The decimal renderings of the four octets of an address. */
  function DottedParts(a: bv32): (ps: seq<string>)
    ensures |ps| == 4
  {
    var o := Be32(a);
    [Decimal(o[0] as nat), Decimal(o[1] as nat), Decimal(o[2] as nat), Decimal(o[3] as nat)]
  }

  /** The usual text form of an address, as inet_ntop writes it. */
  function Dotted(a: bv32): string
  {
    Join(DottedParts(a), '.')
  }

  lemma DecimalLength(n: nat)
    ensures n < 10 ==> |Decimal(n)| == 1
    ensures 10 <= n < 100 ==> |Decimal(n)| == 2
    ensures 100 <= n < 1000 ==> |Decimal(n)| == 3
  {
  }

  lemma DecimalOctet(n: nat)
    requires n < 256
    ensures Octet(Decimal(n)) && DigitsValue(Decimal(n)) == n
  {
    DecimalRoundTrip(n);
    DecimalLength(n);
  }

  lemma NoDotInDecimal(n: nat)
    ensures '.' !in Decimal(n)
  {
    var s := Decimal(n);
    assert forall i :: 0 <= i < |s| ==> s[i] != '.';
  }

  lemma SameByte(x: bv8, y: bv8)
    requires x as int == y as int
    ensures x == y
  {
  }

  lemma OctetDecimal(b: bv8)
    ensures Octet(Decimal(b as nat)) && OctetValue(Decimal(b as nat)) == b
    ensures '.' !in Decimal(b as nat)
  {
    DecimalOctet(b as nat);
    NoDotInDecimal(b as nat);
    SameByte(OctetValue(Decimal(b as nat)), b);
  }

  /** inet_pton reads back every address written in dotted-quad form. */
  lemma InetPtonDotted(a: bv32)
    ensures InetPton(Dotted(a)) == Some(a)
  {
    var o := Be32(a);
    var ps := DottedParts(a);
    OctetDecimal(o[0]);
    OctetDecimal(o[1]);
    OctetDecimal(o[2]);
    OctetDecimal(o[3]);
    JoinSplit(ps, '.');
    assert [OctetValue(ps[0]), OctetValue(ps[1]), OctetValue(ps[2]), OctetValue(ps[3])] == o;
  }

  /** Every string inet_pton accepts is the dotted form of the address it yields:
      there is exactly one spelling of each address. */
  lemma InetPtonCanonical(s: string)
    requires InetPton(s).Some?
    ensures Dotted(InetPton(s).value) == s
  {
    var ps := Split(s, '.');
    var o := [OctetValue(ps[0]), OctetValue(ps[1]), OctetValue(ps[2]), OctetValue(ps[3])];
    var a := U32At(o, 0);
    assert InetPton(s).value == a;
    Be32OfU32(o);
    OctetDecimalOf(ps[0]);
    OctetDecimalOf(ps[1]);
    OctetDecimalOf(ps[2]);
    OctetDecimalOf(ps[3]);
    assert DottedParts(a) == [ps[0], ps[1], ps[2], ps[3]];
    assert ps == [ps[0], ps[1], ps[2], ps[3]];
    SplitJoin(s, '.');
  }

  lemma Be32OfU32(o: seq<bv8>)
    requires |o| == 4
    ensures Be32(U32At(o, 0)) == o
  {
  }

  lemma OctetDecimalOf(p: string)
    requires Octet(p)
    ensures Decimal(OctetValue(p) as nat) == p
  {
    DecimalOfDigits(p);
  }

  /** The pieces joined by the separator (the inverse of Split). */
  function Join(ps: seq<string>, d: char): string
    requires |ps| >= 1
  {
    if |ps| == 1 then ps[0] else ps[0] + [d] + Join(ps[1..], d)
  }

  /** Joining the pieces of a split gives back the string. */
  lemma {:induction false} SplitJoin(s: string, d: char)
    ensures Join(Split(s, d), d) == s
    decreases |s|
  {
    if d in s {
      var k := IndexOf(s, d);
      SplitJoin(s[k + 1..], d);
      assert s == s[..k] + [d] + s[k + 1..];
    }
  }

  /** Splitting pieces joined by a separator none of them contains gives back
      the pieces. */
  lemma {:induction false} JoinSplit(ps: seq<string>, d: char)
    requires |ps| >= 1 && forall p :: p in ps ==> d !in p
    ensures Split(Join(ps, d), d) == ps
    decreases |ps|
  {
    if |ps| > 1 {
      JoinSplit(ps[1..], d);
      SplitCons(ps[0], d, Join(ps[1..], d));
    } else {
      assert ps[0] in ps;
    }
  }

  const INADDR_NONE: bv32 := 0xFFFF_FFFF

  /** inet_addr(s): the dotted-quad address, or INADDR_NONE when s is not one;
      "255.255.255.255" also yields INADDR_NONE. */
  function InetAddr(s: string): (r: bv32)
    ensures r == INADDR_NONE <==> InetPton(s).None? || InetPton(s) == Some(INADDR_NONE)
  {
    match InetPton(s)
    case Some(a) => a
    case None => INADDR_NONE
  }
}
