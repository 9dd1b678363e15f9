// parse_ip_cidr and parse_ip_port of the older option parser (src/parser.c).
//
// Both copy their argument into a fixed-size buffer, cut the copy with
// strtok and write their out-parameters. The library calls are the models
// in CLib: strtok is Tokens, inet_pton InetPton, inet_addr InetAddr, atoi
// Atoi. A big-endian host is assumed, so htonl and ntohl leave values
// unchanged. The messages printed on each path are not modelled.

module LegacyAddresses {
  import opened Outcomes
  import opened CLib
  import Wire

  /** xxx.xxx.xxx.xxx/xx and xxx.xxx.xxx.xxx:xxxxx */
  const MAX_IP_CIDR_LENGTH: nat := 18
  const MAX_IP_PORT_LENGTH: nat := 21

  const PORT_MIN: int := 0
  const PORT_MAX: int := 65535

  const EXIT_SUCCESS: int := 0
  const EXIT_FAILURE: int := 1

  /** Pieces of at most three digits joined by a separator: at most four
      characters per piece, less one, and nothing but digits and separators. */
  lemma {:induction false} JoinOfDigits(ps: seq<string>, d: char)
    requires |ps| >= 1
    requires forall k :: 0 <= k < |ps| ==> AllDigits(ps[k]) && |ps[k]| <= 3
    ensures |Join(ps, d)| <= 4 * |ps| - 1
    ensures forall i :: 0 <= i < |Join(ps, d)| ==> Join(ps, d)[i] == d || IsDigit(Join(ps, d)[i])
    decreases |ps|
  {
    if |ps| > 1 {
      var rest := ps[1..];
      JoinOfDigits(rest, d);
      var s := Join(ps, d);
      assert s == ps[0] + [d] + Join(rest, d);
      forall i | 0 <= i < |s|
        ensures s[i] == d || IsDigit(s[i])
      {
        if i > |ps[0]| {
          assert s[i] == Join(rest, d)[i - |ps[0]| - 1];
        }
      }
    }
  }

  /** The text form of an address is at most 15 characters of digits and dots. */
  lemma DottedShape(a: bv32)
    ensures |Dotted(a)| <= 15
    ensures forall i :: 0 <= i < |Dotted(a)| ==> Dotted(a)[i] == '.' || IsDigit(Dotted(a)[i])
  {
    var ps := DottedParts(a);
    var o := Wire.Be32(a);
    DecimalLength(o[0] as nat);
    DecimalLength(o[1] as nat);
    DecimalLength(o[2] as nat);
    DecimalLength(o[3] as nat);
    JoinOfDigits(ps, '.');
  }

  // ===== parse_ip_cidr =====

  /** The first range of addresses and the last. */
  datatype AddrRange = AddrRange(start: bv32, end: bv32)

  /** The address and prefix length of a CIDR string: the string fits the
      18-character buffer, strtok finds a piece before and after a '/', the
      first piece is a dotted quad and atoi of the second lies in 0..32.
      Pieces after the second are ignored. */
  function CidrFields(s: string): (r: Option<(bv32, nat)>)
    ensures r.Some? ==> |s| <= MAX_IP_CIDR_LENGTH && r.value.1 <= 32
  {
    if |s| > MAX_IP_CIDR_LENGTH then None
    else
      var t := Tokens(s, '/');
      if |t| < 2 then None
      else
        match InetPton(t[0])
        case None => None
        case Some(a) =>
          var p := Atoi(t[1]);
          if p < 0 || p > 32 then None else Some((a, p))
  }

  /** A host mask: some number of low bits set and no other. */
  predicate LowOnes(h: bv32)
  {
    h & (h + 1) == 0
  }

  /** `32 - prefix_len`, the shift count of the mask. */
  function ShiftCount(p: nat): (k: bv6)
    requires p <= 32
    ensures k <= 32
  {
    (32 - p) as bv6
  }

  /** The network mask of a prefix length: the top p bits set, so that what
      it leaves out is a host mask. A prefix of 0 is the empty mask and /0
      covers every address, as section 3.1 of RFC 4632 has it. */
  function PrefixMask(p: nat): (m: bv32)
    requires p <= 32
    ensures LowOnes(!m)
  {
    0xFFFF_FFFF << ShiftCount(p)
  }

  /** The block of addresses a mask cuts around a: a with every host bit
      cleared, and with every host bit set. */
  function Block(a: bv32, m: bv32): AddrRange
  {
    AddrRange(a & m, a | !m)
  }

  /** The block a prefix names. */
  function CidrRange(a: bv32, p: nat): AddrRange
    requires p <= 32
  {
    Block(a, PrefixMask(p))
  }

  /** parse_ip_cidr: the block the string names, None where it returns
      EXIT_FAILURE. */
  function ParseCidr(s: string): (r: Option<AddrRange>)
    ensures r.Some? <==> CidrFields(s).Some?
  {
    match CidrFields(s)
    case None => None
    case Some((a, p)) => Some(CidrRange(a, p))
  }

  // The facts about a block are stated one at a time: the solver handles
  // each unsigned 32-bit comparison cheaply, but not many of them at once.

  /** The block starts at or below the address and ends at or above it. */
  lemma BlockHoldsAddress(a: bv32, m: bv32)
    ensures Block(a, m).start <= a <= Block(a, m).end
  {
  }

  /** Both ends keep the network part of the address: its bits under the mask. */
  lemma BlockNetwork(a: bv32, m: bv32)
    ensures Block(a, m).start & m == a & m && Block(a, m).end & m == a & m
  {
  }

  /** The start has every host bit clear and the end every host bit set. */
  lemma BlockHostBits(a: bv32, m: bv32)
    ensures Block(a, m).start & !m == 0 && Block(a, m).end & !m == !m
  {
  }

  /** With a prefix mask, every address that shares the network part lies
      between the two ends, which are thus the lowest and the highest
      address of the network. */
  lemma BlockMembers(a: bv32, m: bv32, x: bv32)
    requires LowOnes(!m) && x & m == a & m
    ensures Block(a, m).start <= x <= Block(a, m).end
  {
  }

  /** An empty mask makes the block every address; a full one, the address alone. */
  lemma BlockEmptyMask(a: bv32)
    ensures Block(a, 0).start == 0 && Block(a, 0).end == 0xFFFF_FFFF
  {
  }

  lemma BlockFullMask(a: bv32)
    ensures Block(a, 0xFFFF_FFFF).start == a && Block(a, 0xFFFF_FFFF).end == a
  {
  }

  /** /0 is every address and /32 the address alone. */
  lemma CidrRangeExtremes(a: bv32)
    ensures CidrRange(a, 0).start == 0 && CidrRange(a, 0).end == 0xFFFF_FFFF
    ensures CidrRange(a, 32).start == a && CidrRange(a, 32).end == a
  {
    assert PrefixMask(0) == 0;
    assert PrefixMask(32) == 0xFFFF_FFFF;
    BlockEmptyMask(a);
    BlockFullMask(a);
  }

  /** An address and a number written with a separator that is neither a
      digit nor a dot: strtok cuts the text back into the two. */
  lemma {:induction false} DottedPieces(a: bv32, n: nat, sep: char)
    requires sep != '.' && !IsDigit(sep)
    ensures |Dotted(a) + [sep] + Decimal(n)| == |Dotted(a)| + 1 + |Decimal(n)| <= 16 + |Decimal(n)|
    ensures Tokens(Dotted(a) + [sep] + Decimal(n), sep) == [Dotted(a), Decimal(n)]
  {
    var d := Dotted(a);
    var t := Decimal(n);
    DottedShape(a);
    assert sep !in d by {
      forall i | 0 <= i < |d| ensures d[i] != sep {
      }
    }
    assert sep !in t by {
      forall i | 0 <= i < |t| ensures t[i] != sep {
      }
    }
    SplitCons(d, sep, t);
    assert Split(d + [sep] + t, sep) == [d, t];
    assert NonEmpty([d, t]) == [d, t] by {
      assert NonEmpty([d, t][1..]) == [t];
    }
  }

  /** Every address with every prefix length, written as parse_ip_cidr
      expects it, reads back as itself. */
  lemma CidrFieldsDotted(a: bv32, p: nat)
    requires p <= 32
    ensures CidrFields(Dotted(a) + "/" + Decimal(p)) == Some((a, p))
    ensures ParseCidr(Dotted(a) + "/" + Decimal(p)) == Some(CidrRange(a, p))
  {
    DottedPieces(a, p, '/');
    DecimalLength(p);
    InetPtonDotted(a);
    StrtolDecimal(p);
  }

  /** Strings over 18 characters, and strings without an address and a prefix
      around a '/', are rejected. */
  lemma CidrRejectsMalformed(s: string)
    ensures |s| > MAX_IP_CIDR_LENGTH ==> ParseCidr(s).None?
    ensures |Tokens(s, '/')| < 2 ==> ParseCidr(s).None?
    ensures |Tokens(s, '/')| >= 2 && InetPton(Tokens(s, '/')[0]).None? ==> ParseCidr(s).None?
  {
  }

  /** A prefix length outside 0..32 is rejected. */
  lemma CidrRejectsPrefix(s: string)
    requires |Tokens(s, '/')| >= 2
    requires Atoi(Tokens(s, '/')[1]) < 0 || Atoi(Tokens(s, '/')[1]) > 32
    ensures ParseCidr(s).None?
  {
  }

  // ----- the mask as written -----

  /** `(uint32_t)~0 << (32 - prefix_len)` as the processor computes it: the
      shift count is taken modulo 32 (x86 SHL, AArch64 LSL), so a prefix of 0
      shifts by 0 rather than clearing the mask. C leaves a shift by 32
      undefined. */
  function MaskAsWritten(p: nat): (m: bv32)
    requires p <= 32
  {
    0xFFFF_FFFF << (ShiftCount(p) % 32)
  }

  /** parse_ip_cidr with the mask as written. */
  function ParseCidrAsWritten(s: string): (r: Option<AddrRange>)
    ensures r.Some? <==> CidrFields(s).Some?
  {
    match CidrFields(s)
    case None => None
    case Some((a, p)) => Some(Block(a, MaskAsWritten(p)))
  }

  /** The mask as written is the intended one for prefixes 1..32. */
  lemma MaskAsWrittenAgrees(p: nat)
    requires 0 < p <= 32
    ensures MaskAsWritten(p) == PrefixMask(p)
  {
  }

  /** For /0 the mask as written keeps every bit, where the intended one
      keeps none. */
  lemma MaskAsWrittenSlashZero()
    ensures MaskAsWritten(0) == 0xFFFF_FFFF && PrefixMask(0) == 0
  {
  }

  /** So "a.b.c.d/0" yields the one address a.b.c.d ... */
  lemma SlashZeroAsWritten(a: bv32)
    ensures ParseCidrAsWritten(Dotted(a) + "/0").Some?
    ensures ParseCidrAsWritten(Dotted(a) + "/0").value.start == a
    ensures ParseCidrAsWritten(Dotted(a) + "/0").value.end == a
  {
    SlashZeroFields(a);
    MaskAsWrittenSlashZero();
    BlockFullMask(a);
  }

  /** ... instead of the whole address space. */
  lemma SlashZeroIntended(a: bv32)
    ensures ParseCidr(Dotted(a) + "/0").Some?
    ensures ParseCidr(Dotted(a) + "/0").value.start == 0
    ensures ParseCidr(Dotted(a) + "/0").value.end == 0xFFFF_FFFF
  {
    SlashZeroFields(a);
    MaskAsWrittenSlashZero();
    BlockEmptyMask(a);
  }

  lemma SlashZeroFields(a: bv32)
    ensures CidrFields(Dotted(a) + "/0") == Some((a, 0))
  {
    CidrFieldsDotted(a, 0);
    assert Dotted(a) + "/" + Decimal(0) == Dotted(a) + "/0";
  }

  /** What parse_ip_cidr writes into `struct ip_addr_range`. */
  class IpAddrRange {
    var start: bv32
    var end: bv32

    constructor ()
      ensures start == 0 && end == 0
    {
      start, end := 0, 0;
    }
  }

  /** parse_ip_cidr: on success the range holds the block the string names;
      on failure the range is left as it was. */
  method ParseIpCidr(s: string, range: IpAddrRange) returns (status: int)
    modifies range
    ensures status == EXIT_SUCCESS || status == EXIT_FAILURE
    ensures status == EXIT_SUCCESS <==> ParseCidr(s).Some?
    ensures status == EXIT_SUCCESS ==> range.start == ParseCidr(s).value.start && range.end == ParseCidr(s).value.end
    ensures status == EXIT_FAILURE ==> unchanged(range)
  {
    if |s| > MAX_IP_CIDR_LENGTH {
      return EXIT_FAILURE;
    }
    var tokens := Tokens(s, '/');
    if |tokens| < 2 {
      return EXIT_FAILURE;
    }
    var ip := InetPton(tokens[0]);
    if ip.None? {
      return EXIT_FAILURE;
    }
    var prefixLen := Atoi(tokens[1]);
    if prefixLen < 0 || prefixLen > 32 {
      return EXIT_FAILURE;
    }
    var mask := PrefixMask(prefixLen);
    // start = address & mask, end = address | ~mask
    assert ParseCidr(s) == Some(Block(ip.value, mask));
    range.start := Block(ip.value, mask).start;
    range.end := Block(ip.value, mask).end;
    return EXIT_SUCCESS;
  }

  // ===== parse_ip_port =====

  /** What parse_ip_port leaves behind: the address and the port it stored,
      where it got that far, and what it returns. The address is stored
      before it is checked, the port before its range is. */
  datatype IpPortResult = IpPortResult(ip: Option<bv32>, port: Option<int>, status: int)

  /** parse_ip_port: the string fits the 21-character buffer, strtok finds a
      piece before and after a ':', inet_addr of the first is not
      INADDR_NONE and atoi of the second lies in [PORT_MIN, PORT_MAX]. */
  function IpPort(s: string): (r: IpPortResult)
    ensures r.status == EXIT_SUCCESS || r.status == EXIT_FAILURE
    ensures r.port.Some? ==> r.ip.Some? && r.ip.value != INADDR_NONE
    ensures r.status == EXIT_SUCCESS ==>
              && |s| <= MAX_IP_PORT_LENGTH
              && r.ip.Some? && r.port.Some? && PORT_MIN <= r.port.value <= PORT_MAX
  {
    if |s| > MAX_IP_PORT_LENGTH then IpPortResult(None, None, EXIT_FAILURE)
    else
      var t := Tokens(s, ':');
      if |t| < 2 then IpPortResult(None, None, EXIT_FAILURE)
      else
        var ip := InetAddr(t[0]);
        if ip == INADDR_NONE then IpPortResult(Some(ip), None, EXIT_FAILURE)
        else
          var port := Atoi(t[1]);
          IpPortResult(Some(ip), Some(port), if port < PORT_MIN || port > PORT_MAX then EXIT_FAILURE else EXIT_SUCCESS)
  }

  /** Strings over 21 characters and strings without an address and a port
      around a ':' are rejected before anything is stored. */
  lemma IpPortRejectsMalformed(s: string)
    requires |s| > MAX_IP_PORT_LENGTH || |Tokens(s, ':')| < 2
    ensures IpPort(s) == IpPortResult(None, None, EXIT_FAILURE)
  {
  }

  /** An address inet_addr cannot read, and also "255.255.255.255", whose
      value is INADDR_NONE itself, is rejected after it has been stored. */
  lemma IpPortRejectsAddress(s: string)
    requires |s| <= MAX_IP_PORT_LENGTH && |Tokens(s, ':')| >= 2
    requires InetPton(Tokens(s, ':')[0]).None? || InetPton(Tokens(s, ':')[0]) == Some(INADDR_NONE)
    ensures IpPort(s) == IpPortResult(Some(INADDR_NONE), None, EXIT_FAILURE)
  {
  }

  /** A port outside [PORT_MIN, PORT_MAX] is rejected after it has been stored. */
  lemma IpPortRejectsPort(s: string)
    requires IpPort(s).port.Some?
    ensures IpPort(s).status == EXIT_FAILURE <==> IpPort(s).port.value < PORT_MIN || IpPort(s).port.value > PORT_MAX
  {
  }

  /** Every address other than INADDR_NONE with every port, written as
      parse_ip_port expects it, reads back as itself. */
  lemma IpPortDotted(a: bv32, port: nat)
    requires a != INADDR_NONE && port <= PORT_MAX
    ensures IpPort(Dotted(a) + ":" + Decimal(port)).status == EXIT_SUCCESS
    ensures IpPort(Dotted(a) + ":" + Decimal(port)).ip == Some(a)
    ensures IpPort(Dotted(a) + ":" + Decimal(port)).port == Some(port)
  {
    DottedPieces(a, port, ':');
    DecimalFiveDigits(port);
    InetPtonDotted(a);
    StrtolDecimal(port);
  }

  /** A port number takes at most five digits. */
  lemma DecimalFiveDigits(n: nat)
    requires n < 100000
    ensures |Decimal(n)| <= 5
  {
    if n >= 1000 {
      assert Decimal(n) == Decimal(n / 10) + [DigitChar(n % 10)];
      if n / 10 >= 1000 {
        assert Decimal(n / 10) == Decimal(n / 100) + [DigitChar(n / 10 % 10)];
        DecimalLength(n / 100);
      } else {
        DecimalLength(n / 10);
      }
    } else {
      DecimalLength(n);
    }
  }

  /** The address and the port parse_ip_port writes through its two pointers. */
  class Endpoint {
    var ip: bv32
    var port: int

    constructor ()
      ensures ip == 0 && port == 0
    {
      ip, port := 0, 0;
    }
  }

  /** parse_ip_port: stores what IpPort says it stores, keeps the rest, and
      returns its status. */
  method ParseIpPort(s: string, dest: Endpoint) returns (status: int)
    modifies dest
    ensures status == IpPort(s).status
    ensures dest.ip == (if IpPort(s).ip.Some? then IpPort(s).ip.value else old(dest.ip))
    ensures dest.port == (if IpPort(s).port.Some? then IpPort(s).port.value else old(dest.port))
  {
    if |s| > MAX_IP_PORT_LENGTH {
      return EXIT_FAILURE;
    }
    var tokens := Tokens(s, ':');
    if |tokens| < 2 {
      return EXIT_FAILURE;
    }
    dest.ip := InetAddr(tokens[0]);
    if dest.ip == INADDR_NONE {
      return EXIT_FAILURE;
    }
    dest.port := Atoi(tokens[1]);
    if dest.port < PORT_MIN || dest.port > PORT_MAX {
      return EXIT_FAILURE;
    }
    return EXIT_SUCCESS;
  }
}
