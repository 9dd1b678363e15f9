/** The IPv4 header of section 3.1 of RFC 791 as ip_hdr lays it out: 20 bytes
    without options, read and written through mask/shift views. The ToS byte
    and DSCP+ECN are two views of byte 1; the three flag bits and the 13-bit
    fragment offset are two views of the word in bytes 6-7; a 32-bit address
    and its four octets are two views of the same four bytes.
    Bit order is most-significant-bit first, as in the RFC diagrams. */
module Ipv4 {
  import opened Wire
  import opened Outcomes

  /** sizeof(ip_hdr) with an empty options array. */
  const IP_HDR_LEN: nat := 20

  // Byte offsets of the fields inside the header.
  const VER_IHL_OFS: nat := 0
  const TOS_OFS: nat := 1
  const LEN_OFS: nat := 2
  const ID_OFS: nat := 4
  const FRAG_OFS: nat := 6
  const TTL_OFS: nat := 8
  const PROTO_OFS: nat := 9
  const CHKSUM_OFS: nat := 10
  const SADDR_OFS: nat := 12
  const DADDR_OFS: nat := 16

  type Header = h: seq<bv8> | |h| == IP_HDR_LEN witness seq(IP_HDR_LEN, _ => 0)

  // ===== ip_addr_t: an address and its four octets =====

  function Octets(a: bv32): (o: seq<bv8>)
    ensures |o| == 4 && U32At(o, 0) == a
  {
    Be32(a)
  }

  function Address(o: seq<bv8>): bv32
    requires |o| == 4
  {
    U32At(o, 0)
  }

  /** octets -> address -> octets is the identity. */
  lemma OctetsAddressRoundTrip(o: seq<bv8>)
    requires |o| == 4
    ensures Octets(Address(o)) == o
  {
  }

  // ===== enumerations =====

  /** ip_proto_t. */
  datatype Protocol = ProtoIp | ProtoIcmp | ProtoTcp | ProtoUdp

  function ProtocolCode(p: Protocol): bv8
  {
    match p
    case ProtoIp => 0
    case ProtoIcmp => 1
    case ProtoTcp => 6
    case ProtoUdp => 17
  }

  function ProtocolOf(code: bv8): (r: Option<Protocol>)
    ensures r.Some? ==> ProtocolCode(r.value) == code
  {
    if code == 0 then Some(ProtoIp)
    else if code == 1 then Some(ProtoIcmp)
    else if code == 6 then Some(ProtoTcp)
    else if code == 17 then Some(ProtoUdp)
    else None
  }

  /** Protocol codes are distinct: each code names exactly one protocol. */
  lemma ProtocolCodeRoundTrip(p: Protocol)
    ensures ProtocolOf(ProtocolCode(p)) == Some(p)
  {
  }

  /** ip_tos_prec_t (section 3.1 of RFC 791). */
  datatype Precedence =
    | Routine | Priority | Immediate | Flash | FlashOverride
    | CriticEcp | InternetworkControl | NetworkControl

  function PrecedenceCode(p: Precedence): bv3
  {
    match p
    case Routine => 0
    case Priority => 1
    case Immediate => 2
    case Flash => 3
    case FlashOverride => 4
    case CriticEcp => 5
    case InternetworkControl => 6
    case NetworkControl => 7
  }

  /** Every 3-bit precedence value has exactly one name. */
  function PrecedenceOf(code: bv3): (p: Precedence)
    ensures PrecedenceCode(p) == code
  {
    if code == 0 then Routine else if code == 1 then Priority
    else if code == 2 then Immediate else if code == 3 then Flash
    else if code == 4 then FlashOverride else if code == 5 then CriticEcp
    else if code == 6 then InternetworkControl else NetworkControl
  }

  lemma PrecedenceRoundTrip(p: Precedence)
    ensures PrecedenceOf(PrecedenceCode(p)) == p
  {
  }

  /** ip_ecn_code_t (section 5 of RFC 3168). */
  datatype Ecn = NotEct | Ect1 | Ect0 | Ce

  function EcnCode(e: Ecn): bv2
  {
    match e
    case NotEct => 0
    case Ect1 => 1
    case Ect0 => 2
    case Ce => 3
  }

  function EcnOf(code: bv2): (e: Ecn)
    ensures EcnCode(e) == code
  {
    if code == 0 then NotEct else if code == 1 then Ect1
    else if code == 2 then Ect0 else Ce
  }

  lemma EcnRoundTrip(e: Ecn)
    ensures EcnOf(EcnCode(e)) == e
  {
  }

  /** ip_dscp_code_t: the class selectors of RFC 2474, the assured forwarding
      classes of RFC 2597, EF (RFC 3246), Voice-Admit (RFC 5865) and LE (RFC 8622). */
  datatype Dscp =
    | DF | CS0 | CS1 | CS2 | CS3 | CS4 | CS5 | CS6 | CS7
    | AF11 | AF12 | AF13 | AF21 | AF22 | AF23 | AF31 | AF32 | AF33
    | AF41 | AF42 | AF43 | EF | VA | LE

  function DscpCode(d: Dscp): (c: nat)
    ensures c < 64
  {
    match d
    case DF => 0
    case CS0 => 0
    case CS1 => 8
    case CS2 => 16
    case CS3 => 24
    case CS4 => 32
    case CS5 => 40
    case CS6 => 48
    case CS7 => 56
    case AF11 => 10
    case AF12 => 12
    case AF13 => 14
    case AF21 => 18
    case AF22 => 20
    case AF23 => 22
    case AF31 => 26
    case AF32 => 28
    case AF33 => 30
    case AF41 => 34
    case AF42 => 36
    case AF43 => 38
    case EF => 46
    case VA => 44
    case LE => 1
  }

  /** DF and CS0 share code 0, so code -> name is not a function of the code. */
  lemma DscpCodeNotInjective()
    ensures DF != CS0 && DscpCode(DF) == DscpCode(CS0)
  {
  }

  /** Apart from the DF/CS0 alias, distinct DSCP names have distinct codes. */
  lemma DscpCodesOtherwiseDistinct(d: Dscp, e: Dscp)
    requires d != e && DscpCode(d) == DscpCode(e)
    ensures {d, e} == {DF, CS0}
  {
  }

  /** Every class selector CSn has the precedence n in its top three bits,
      which is what keeps DSCP "somewhat backward-compatible" with ToS. */
  lemma ClassSelectorsKeepPrecedence(n: nat)
    requires n < 8
    ensures DscpCode([CS0, CS1, CS2, CS3, CS4, CS5, CS6, CS7][n]) == 8 * n
  {
  }

  /** ip_flag_t: the three flag bits of bytes 6-7. */
  datatype IpFlag = Evil | DontFragment | MoreFragments

  function IpFlagMask(f: IpFlag): bv3
  {
    match f
    case Evil => 4
    case DontFragment => 2
    case MoreFragments => 1
  }

  /** The three flags are single bits and no two share a bit. */
  lemma IpFlagMasksDisjointSingleBits(f: IpFlag, g: IpFlag)
    ensures IpFlagMask(f) != 0 && IpFlagMask(f) & (IpFlagMask(f) - 1) == 0
    ensures f != g ==> IpFlagMask(f) & IpFlagMask(g) == 0
  {
  }

  // ===== byte 0: version and IHL =====

  function Version(h: Header): bv4 { HiNibble(h[VER_IHL_OFS]) }

  function Ihl(h: Header): bv4 { LoNibble(h[VER_IHL_OFS]) }

  function WithVersion(h: Header, v: bv4): (r: Header)
    ensures Version(r) == v && Ihl(r) == Ihl(h)
    ensures AgreeOutside(r, h, VER_IHL_OFS, VER_IHL_OFS + 1)
  {
    h[VER_IHL_OFS := WithHiNibble(h[VER_IHL_OFS], v)]
  }

  function WithIhl(h: Header, v: bv4): (r: Header)
    ensures Ihl(r) == v && Version(r) == Version(h)
    ensures AgreeOutside(r, h, VER_IHL_OFS, VER_IHL_OFS + 1)
  {
    h[VER_IHL_OFS := WithLoNibble(h[VER_IHL_OFS], v)]
  }

  // ===== byte 1: ToS (RFC 791 / RFC 1349) versus DSCP + ECN (RFC 2474 / RFC 3168) =====

  function Tos(h: Header): bv8 { h[TOS_OFS] }

  function Dscp6(h: Header): bv6 { (h[TOS_OFS] >> 2) as bv6 }

  function EcnBits(h: Header): bv2 { (h[TOS_OFS] & 3) as bv2 }

  function Prec(h: Header): bv3 { (h[TOS_OFS] >> 5) as bv3 }

  /** The four RFC 1349 flag bits and the must-be-zero bit, after the precedence. */
  datatype TosBit = LowDelay | HighThroughput | HighReliability | LowCost | MustBeZero

  function TosBitMask(b: TosBit): (m: bv8)
    ensures IsSingleBit(m) && m & 0xE0 == 0
  {
    match b
    case LowDelay => 0x10
    case HighThroughput => 0x08
    case HighReliability => 0x04
    case LowCost => 0x02
    case MustBeZero => 0x01
  }

  predicate TosBitSet(h: Header, b: TosBit)
  {
    h[TOS_OFS] & TosBitMask(b) != 0
  }

  function WithTos(h: Header, t: bv8): (r: Header)
    ensures Tos(r) == t && AgreeOutside(r, h, TOS_OFS, TOS_OFS + 1)
  {
    h[TOS_OFS := t]
  }

  function WithDscp(h: Header, d: bv6): (r: Header)
    ensures Dscp6(r) == d && EcnBits(r) == EcnBits(h)
    ensures Tos(r) == ((d as bv8) << 2) | (EcnBits(h) as bv8)
    ensures AgreeOutside(r, h, TOS_OFS, TOS_OFS + 1)
  {
    h[TOS_OFS := (h[TOS_OFS] & 0x03) | ((d as bv8) << 2)]
  }

  function WithEcn(h: Header, e: bv2): (r: Header)
    ensures EcnBits(r) == e && Dscp6(r) == Dscp6(h)
    ensures AgreeOutside(r, h, TOS_OFS, TOS_OFS + 1)
  {
    h[TOS_OFS := (h[TOS_OFS] & 0xFC) | (e as bv8)]
  }

  function WithPrec(h: Header, p: bv3): (r: Header)
    ensures Prec(r) == p
    ensures forall b :: TosBitSet(r, b) == TosBitSet(h, b)
    ensures AgreeOutside(r, h, TOS_OFS, TOS_OFS + 1)
  {
    h[TOS_OFS := (h[TOS_OFS] & 0x1F) | ((p as bv8) << 5)]
  }

  /** Setting one legacy ToS flag changes exactly that bit of the byte. */
  function WithTosBit(h: Header, b: TosBit, on: bool): (r: Header)
    ensures TosBitSet(r, b) == on
    ensures Tos(r) & !TosBitMask(b) == Tos(h) & !TosBitMask(b)
  {
    h[TOS_OFS := WithBit(h[TOS_OFS], TosBitMask(b), on)]
  }

  /** The masks of two different flags share no bit. */
  lemma TosBitMasksDisjoint(b: TosBit, c: TosBit)
    requires b != c
    ensures TosBitMask(b) & TosBitMask(c) == 0
  {
  }

  /** Setting one flag leaves every other flag as it was. */
  lemma WithTosBitKeepsOthers(h: Header, b: TosBit, c: TosBit, on: bool)
    requires c != b
    ensures TosBitSet(WithTosBit(h, b, on), c) == TosBitSet(h, c)
  {
    TosBitMasksDisjoint(b, c);
    MaskedAgree(Tos(h), Tos(WithTosBit(h, b, on)), TosBitMask(b), TosBitMask(c));
  }

  /** Setting a flag leaves the precedence and every byte but the ToS byte as
      they were. */
  lemma WithTosBitKeepsPrec(h: Header, b: TosBit, on: bool)
    ensures Prec(WithTosBit(h, b, on)) == Prec(h)
    ensures AgreeOutside(WithTosBit(h, b, on), h, TOS_OFS, TOS_OFS + 1)
  {
    var r := WithTosBit(h, b, on);
    MaskedAgree(Tos(h), Tos(r), TosBitMask(b), 0xE0);
    HighBitsAgree(Tos(h), Tos(r));
  }

  /** Bytes that agree outside mask m agree on any mask disjoint from m. */
  lemma MaskedAgree(x: bv8, y: bv8, m: bv8, n: bv8)
    requires y & !m == x & !m && m & n == 0
    ensures y & n == x & n
  {
  }

  lemma HighBitsAgree(x: bv8, y: bv8)
    requires y & 0xE0 == x & 0xE0
    ensures (y >> 5) as bv3 == (x >> 5) as bv3
  {
  }

  /** The two views of byte 1: DSCP is its top six bits and ECN the low two,
      and the legacy layout is precedence, the four flags, then must-be-zero. */
  lemma TosViews(h: Header)
    ensures Tos(h) == ((Dscp6(h) as bv8) << 2) | (EcnBits(h) as bv8)
    ensures Tos(h) == ((Prec(h) as bv8) << 5)
                      | (if TosBitSet(h, LowDelay) then 0x10 else 0)
                      | (if TosBitSet(h, HighThroughput) then 0x08 else 0)
                      | (if TosBitSet(h, HighReliability) then 0x04 else 0)
                      | (if TosBitSet(h, LowCost) then 0x02 else 0)
                      | (if TosBitSet(h, MustBeZero) then 0x01 else 0)
    ensures Prec(h) == (Dscp6(h) >> 3) as bv3
  {
  }

  // ===== bytes 2-5: total length and identification =====

  function Len(h: Header): bv16 { U16At(h, LEN_OFS) }

  function WithLen(h: Header, v: bv16): (r: Header)
    ensures Len(r) == v && AgreeOutside(r, h, LEN_OFS, LEN_OFS + 2)
  {
    WithU16(h, LEN_OFS, v)
  }

  function Id(h: Header): bv16 { U16At(h, ID_OFS) }

  function WithId(h: Header, v: bv16): (r: Header)
    ensures Id(r) == v && AgreeOutside(r, h, ID_OFS, ID_OFS + 2)
  {
    WithU16(h, ID_OFS, v)
  }

  // ===== bytes 6-7: three flag bits over a 13-bit fragment offset =====

  function FlagBits(h: Header): bv3 { (h[FRAG_OFS] >> 5) as bv3 }

  function FragOfs(h: Header): bv13 { (U16At(h, FRAG_OFS) & 0x1FFF) as bv13 }

  predicate IpFlagSet(h: Header, f: IpFlag)
  {
    FlagBits(h) & IpFlagMask(f) != 0
  }

  function WithFlagBits(h: Header, f: bv3): (r: Header)
    ensures FlagBits(r) == f && FragOfs(r) == FragOfs(h)
    ensures AgreeOutside(r, h, FRAG_OFS, FRAG_OFS + 1)
  {
    h[FRAG_OFS := (h[FRAG_OFS] & 0x1F) | ((f as bv8) << 5)]
  }

  function WithFragOfs(h: Header, o: bv13): (r: Header)
    ensures FragOfs(r) == o && FlagBits(r) == FlagBits(h)
    ensures AgreeOutside(r, h, FRAG_OFS, FRAG_OFS + 2)
  {
    var w := (U16At(h, FRAG_OFS) & 0xE000) | (o as bv16);
    WithU16(h, FRAG_OFS, w)
  }

  /** Setting one named flag (flags.ev / flags.df / flags.mf) changes only that
      flag: the other two flags and the fragment offset are preserved. */
  function WithIpFlag(h: Header, f: IpFlag, on: bool): (r: Header)
    ensures IpFlagSet(r, f) == on
    ensures forall g :: g != f ==> IpFlagSet(r, g) == IpFlagSet(h, g)
    ensures FragOfs(r) == FragOfs(h)
    ensures AgreeOutside(r, h, FRAG_OFS, FRAG_OFS + 1)
  {
    var m := IpFlagMask(f);
    WithFlagBits(h, if on then FlagBits(h) | m else FlagBits(h) & !m)
  }

  /** The bit that the expanded `flags` struct of the big-endian layout gives each
      name, as declared: mf first (the top bit), then df, then ev. This disagrees
      with ip_flag_t, where the evil bit is the top one. */
  function ExpandedFlagMaskAsWritten(f: IpFlag): bv3
  {
    match f
    case MoreFragments => 4
    case DontFragment => 2
    case Evil => 1
  }

  /** Setting `flags.ev` / `flags.df` / `flags.mf` through that struct. */
  function WithExpandedFlagAsWritten(h: Header, f: IpFlag, on: bool): (r: Header)
    ensures (FlagBits(r) & ExpandedFlagMaskAsWritten(f) != 0) == on
    ensures forall g :: ExpandedFlagMaskAsWritten(g) != ExpandedFlagMaskAsWritten(f) ==>
              (FlagBits(r) & ExpandedFlagMaskAsWritten(g) != 0) == (FlagBits(h) & ExpandedFlagMaskAsWritten(g) != 0)
    ensures FragOfs(r) == FragOfs(h)
    ensures AgreeOutside(r, h, FRAG_OFS, FRAG_OFS + 1)
  {
    var m := ExpandedFlagMaskAsWritten(f);
    WithFlagBits(h, if on then FlagBits(h) | m else FlagBits(h) & !m)
  }

  /** With that layout, asking for the evil bit on a header with no flags sets
      More Fragments and leaves the evil bit clear; WithIpFlag sets the evil bit. */
  lemma EvilBitAsWrittenSetsMoreFragments(h: Header)
    requires FlagBits(h) == 0
    ensures IpFlagSet(WithExpandedFlagAsWritten(h, Evil, true), MoreFragments)
    ensures !IpFlagSet(WithExpandedFlagAsWritten(h, Evil, true), Evil)
    ensures IpFlagSet(WithIpFlag(h, Evil, true), Evil)
    ensures !IpFlagSet(WithIpFlag(h, Evil, true), MoreFragments)
  {
  }

  /** ... and, the other way round, `flags.mf` raises the evil bit. */
  lemma MoreFragmentsAsWrittenSetsEvil(h: Header)
    requires FlagBits(h) == 0
    ensures IpFlagSet(WithExpandedFlagAsWritten(h, MoreFragments, true), Evil)
    ensures !IpFlagSet(WithExpandedFlagAsWritten(h, MoreFragments, true), MoreFragments)
    ensures IpFlagSet(WithIpFlag(h, MoreFragments, true), MoreFragments)
    ensures !IpFlagSet(WithIpFlag(h, MoreFragments, true), Evil)
  {
  }

  /** Bytes 6-7 are one word: the flags in its top three bits, the offset below. */
  lemma FlagWordViews(h: Header)
    ensures U16At(h, FRAG_OFS) == FlagWord(FlagBits(h), FragOfs(h))
    ensures FragOfs(h) as int <= 8191
  {
    WordBytes(h, FRAG_OFS);
    WordOfFlagWord(U16At(h, FRAG_OFS));
  }

  /** Any word is the packing of its top three bits over its low thirteen. */
  lemma WordOfFlagWord(w: bv16)
    ensures FlagWord((HiByte(w) >> 5) as bv3, (w & 0x1FFF) as bv13) == w
  {
  }

  // ===== bytes 8-19 =====

  function Ttl(h: Header): bv8 { h[TTL_OFS] }

  function WithTtl(h: Header, v: bv8): (r: Header)
    ensures Ttl(r) == v && AgreeOutside(r, h, TTL_OFS, TTL_OFS + 1)
  {
    h[TTL_OFS := v]
  }

  function Proto(h: Header): bv8 { h[PROTO_OFS] }

  function WithProto(h: Header, v: bv8): (r: Header)
    ensures Proto(r) == v && AgreeOutside(r, h, PROTO_OFS, PROTO_OFS + 1)
  {
    h[PROTO_OFS := v]
  }

  function Chksum(h: Header): bv16 { U16At(h, CHKSUM_OFS) }

  function WithChksum(h: Header, v: bv16): (r: Header)
    ensures Chksum(r) == v && AgreeOutside(r, h, CHKSUM_OFS, CHKSUM_OFS + 2)
  {
    WithU16(h, CHKSUM_OFS, v)
  }

  function Saddr(h: Header): bv32 { U32At(h, SADDR_OFS) }

  function WithSaddr(h: Header, v: bv32): (r: Header)
    ensures Saddr(r) == v && AgreeOutside(r, h, SADDR_OFS, SADDR_OFS + 4)
  {
    WithU32(h, SADDR_OFS, v)
  }

  function Daddr(h: Header): bv32 { U32At(h, DADDR_OFS) }

  function WithDaddr(h: Header, v: bv32): (r: Header)
    ensures Daddr(r) == v && AgreeOutside(r, h, DADDR_OFS, DADDR_OFS + 4)
  {
    WithU32(h, DADDR_OFS, v)
  }

  /** The source address field read as octets is the address's octets. */
  lemma SaddrOctets(h: Header)
    ensures h[SADDR_OFS..SADDR_OFS + 4] == Octets(Saddr(h))
  {
  }

  lemma DaddrOctets(h: Header)
    ensures h[DADDR_OFS..] == Octets(Daddr(h))
  {
  }

  // ===== the header as a record of its fields, and its wire encoding =====

  datatype Fields = Fields(
    version: bv4, ihl: bv4, tos: bv8, len: bv16, id: bv16,
    flagBits: bv3, fragOfs: bv13, ttl: bv8, proto: bv8, chksum: bv16,
    saddr: bv32, daddr: bv32)

  function Decode(h: Header): Fields
  {
    Fields(Version(h), Ihl(h), Tos(h), Len(h), Id(h), FlagBits(h), FragOfs(h),
           Ttl(h), Proto(h), Chksum(h), Saddr(h), Daddr(h))
  }

  /** Bytes 6-7 as one word: the three flag bits on top of the 13-bit offset. */
  function FlagWord(fb: bv3, fo: bv13): bv16 { ((fb as bv16) << 13) | (fo as bv16) }

  function HiByte(v: bv16): bv8 { (v >> 8) as bv8 }

  function LoByte(v: bv16): bv8 { (v & 0xFF) as bv8 }

  function Encode(f: Fields): (h: Header)
  {
    var fw := FlagWord(f.flagBits, f.fragOfs);
    var head: seq<bv8> := [ WithLoNibble(WithHiNibble(0, f.version), f.ihl), f.tos,
      HiByte(f.len), LoByte(f.len), HiByte(f.id), LoByte(f.id),
      HiByte(fw), LoByte(fw), f.ttl, f.proto,
      HiByte(f.chksum), LoByte(f.chksum) ];
    head + Octets(f.saddr) + Octets(f.daddr)
  }

  /** Every field survives encoding, including both halves of each shared cell. */
  lemma DecodeEncode(f: Fields)
    ensures Decode(Encode(f)) == f
  {
    var h := Encode(f);
    assert h[VER_IHL_OFS] == WithLoNibble(WithHiNibble(0, f.version), f.ihl);
    assert h[TOS_OFS] == f.tos && h[TTL_OFS] == f.ttl && h[PROTO_OFS] == f.proto;
    EncodedWords(f);
    EncodedFlagWord(f);
    EncodedAddresses(f);
  }

  lemma EncodedWords(f: Fields)
    ensures Len(Encode(f)) == f.len && Id(Encode(f)) == f.id && Chksum(Encode(f)) == f.chksum
  {
    var h := Encode(f);
    assert h[LEN_OFS] == HiByte(f.len) && h[LEN_OFS + 1] == LoByte(f.len);
    WordRoundTrip(h, LEN_OFS, f.len);
    assert h[ID_OFS] == HiByte(f.id) && h[ID_OFS + 1] == LoByte(f.id);
    WordRoundTrip(h, ID_OFS, f.id);
    assert h[CHKSUM_OFS] == HiByte(f.chksum) && h[CHKSUM_OFS + 1] == LoByte(f.chksum);
    WordRoundTrip(h, CHKSUM_OFS, f.chksum);
  }

  lemma EncodedFlagWord(f: Fields)
    ensures FlagBits(Encode(f)) == f.flagBits && FragOfs(Encode(f)) == f.fragOfs
  {
    var fw := FlagWord(f.flagBits, f.fragOfs);
    EncodedFlagBytes(f, fw);
    FlagWordFields(Encode(f), f.flagBits, f.fragOfs, fw);
  }

  lemma EncodedFlagBytes(f: Fields, fw: bv16)
    requires fw == FlagWord(f.flagBits, f.fragOfs)
    ensures Encode(f)[FRAG_OFS] == HiByte(fw) && Encode(f)[FRAG_OFS + 1] == LoByte(fw)
  {
  }

  /** A header whose bytes 6-7 spell the packed flags/offset word reads both
      fields back. */
  lemma FlagWordFields(h: Header, fb: bv3, fo: bv13, fw: bv16)
    requires fw == FlagWord(fb, fo)
    requires h[FRAG_OFS] == HiByte(fw) && h[FRAG_OFS + 1] == LoByte(fw)
    ensures FlagBits(h) == fb && FragOfs(h) == fo
  {
    WordRoundTrip(h, FRAG_OFS, fw);
    FlagWordRoundTrip(fb, fo, fw);
  }

  lemma EncodedAddresses(f: Fields)
    ensures Saddr(Encode(f)) == f.saddr && Daddr(Encode(f)) == f.daddr
  {
    var h := Encode(f);
    var head := h[..SADDR_OFS];
    assert h == head + Be32(f.saddr) + Be32(f.daddr);
    U32OfConcat(head, f.saddr, Be32(f.daddr));
    assert h == (head + Be32(f.saddr)) + Be32(f.daddr) + [];
    U32OfConcat(head + Be32(f.saddr), f.daddr, []);
  }

  /** A word whose two bytes were written high byte first reads back whole. */
  lemma WordRoundTrip(h: Header, i: nat, w: bv16)
    requires i + 2 <= IP_HDR_LEN
    requires h[i] == HiByte(w) && h[i + 1] == LoByte(w)
    ensures U16At(h, i) == w
  {
  }

  /** The flags and the offset packed into one word come back out of it. */
  lemma FlagWordRoundTrip(fb: bv3, fo: bv13, fw: bv16)
    requires fw == FlagWord(fb, fo)
    ensures (HiByte(fw) >> 5) as bv3 == fb
    ensures (fw & 0x1FFF) as bv13 == fo
  {
  }

  lemma WordBytes(h: Header, i: nat)
    requires i + 2 <= IP_HDR_LEN
    ensures HiByte(U16At(h, i)) == h[i] && LoByte(U16At(h, i)) == h[i + 1]
  {
  }

  lemma EncodeDecodeVerIhl(h: Header)
    ensures Encode(Decode(h))[0] == h[0]
  {
    NibblesDetermineByte(Encode(Decode(h))[0], h[0]);
  }

  lemma EncodeDecodeWord(h: Header, i: nat)
    requires i in {LEN_OFS, ID_OFS, FRAG_OFS, CHKSUM_OFS}
    ensures Encode(Decode(h))[i] == h[i] && Encode(Decode(h))[i + 1] == h[i + 1]
  {
    WordBytes(h, i);
    if i == FRAG_OFS {
      FlagWordViews(h);
    }
  }

  lemma EncodeDecodeHead(h: Header)
    ensures Encode(Decode(h))[..12] == h[..12]
  {
    var e := Encode(Decode(h));
    EncodeDecodeVerIhl(h);
    EncodeDecodeWord(h, LEN_OFS);
    EncodeDecodeWord(h, ID_OFS);
    EncodeDecodeWord(h, FRAG_OFS);
    EncodeDecodeWord(h, CHKSUM_OFS);
    assert e[TOS_OFS] == h[TOS_OFS] && e[TTL_OFS] == h[TTL_OFS] && e[PROTO_OFS] == h[PROTO_OFS];
    HeadBytes(e);
    HeadBytes(h);
  }

  /** The first twelve bytes, one by one. */
  lemma HeadBytes(h: Header)
    ensures h[..12] == [h[0], h[1], h[2], h[3], h[4], h[5], h[6], h[7], h[8], h[9], h[10], h[11]]
  {
  }

  lemma EncodeAddresses(f: Fields)
    ensures Encode(f)[12..16] == Octets(f.saddr) && Encode(f)[16..] == Octets(f.daddr)
  {
  }

  lemma EncodeDecodeAddresses(h: Header)
    ensures Encode(Decode(h))[12..] == h[12..]
  {
    var e := Encode(Decode(h));
    EncodeAddresses(Decode(h));
    SaddrOctets(h);
    DaddrOctets(h);
    assert e[12..] == e[12..16] + e[16..];
    assert h[12..] == h[12..16] + h[16..];
  }

  /** Every 20-byte header is the encoding of its fields. */
  lemma EncodeDecode(h: Header)
    ensures Encode(Decode(h)) == h
  {
    var e := Encode(Decode(h));
    EncodeDecodeHead(h);
    EncodeDecodeAddresses(h);
    assert e == e[..12] + e[12..];
    assert h == h[..12] + h[12..];
  }

  // ===== the setters on encoded headers =====
  // Writing one field of an encoded header gives the encoding of the record with
  // that field replaced: the setter changes its own field and no other.

  lemma EncodeWithVersion(f: Fields, v: bv4)
    ensures WithVersion(Encode(f), v) == Encode(f.(version := v))
  {
    DecodeEncode(f);
    DecodeWithVersion(Encode(f), v);
    EncodeDecode(WithVersion(Encode(f), v));
  }

  lemma DecodeWithVersion(h: Header, v: bv4)
    ensures Decode(WithVersion(h, v)) == Decode(h).(version := v)
  {
    var r := WithVersion(h, v);
    assert r[TOS_OFS] == h[TOS_OFS] && r[TTL_OFS] == h[TTL_OFS] && r[PROTO_OFS] == h[PROTO_OFS];
    U16Same(r, h, LEN_OFS);
    U16Same(r, h, ID_OFS);
    U16Same(r, h, FRAG_OFS);
    U16Same(r, h, CHKSUM_OFS);
    U32Same(r, h, SADDR_OFS);
    U32Same(r, h, DADDR_OFS);
    assert Version(r) == v;
    assert Ihl(r) == Ihl(h);
    assert Tos(r) == Tos(h);
    assert Len(r) == Len(h);
    assert Id(r) == Id(h);
    assert FlagBits(r) == FlagBits(h);
    assert FragOfs(r) == FragOfs(h);
    assert Ttl(r) == Ttl(h);
    assert Proto(r) == Proto(h);
    assert Chksum(r) == Chksum(h);
    assert Saddr(r) == Saddr(h);
    assert Daddr(r) == Daddr(h);
  }

  lemma EncodeWithIhl(f: Fields, v: bv4)
    ensures WithIhl(Encode(f), v) == Encode(f.(ihl := v))
  {
    DecodeEncode(f);
    DecodeWithIhl(Encode(f), v);
    EncodeDecode(WithIhl(Encode(f), v));
  }

  lemma DecodeWithIhl(h: Header, v: bv4)
    ensures Decode(WithIhl(h, v)) == Decode(h).(ihl := v)
  {
    var r := WithIhl(h, v);
    assert r[TOS_OFS] == h[TOS_OFS] && r[TTL_OFS] == h[TTL_OFS] && r[PROTO_OFS] == h[PROTO_OFS];
    U16Same(r, h, LEN_OFS);
    U16Same(r, h, ID_OFS);
    U16Same(r, h, FRAG_OFS);
    U16Same(r, h, CHKSUM_OFS);
    U32Same(r, h, SADDR_OFS);
    U32Same(r, h, DADDR_OFS);
    assert Version(r) == Version(h);
    assert Ihl(r) == v;
    assert Tos(r) == Tos(h);
    assert Len(r) == Len(h);
    assert Id(r) == Id(h);
    assert FlagBits(r) == FlagBits(h);
    assert FragOfs(r) == FragOfs(h);
    assert Ttl(r) == Ttl(h);
    assert Proto(r) == Proto(h);
    assert Chksum(r) == Chksum(h);
    assert Saddr(r) == Saddr(h);
    assert Daddr(r) == Daddr(h);
  }

  lemma EncodeWithLen(f: Fields, v: bv16)
    ensures WithLen(Encode(f), v) == Encode(f.(len := v))
  {
    DecodeEncode(f);
    DecodeWithLen(Encode(f), v);
    EncodeDecode(WithLen(Encode(f), v));
  }

  lemma DecodeWithLen(h: Header, v: bv16)
    ensures Decode(WithLen(h, v)) == Decode(h).(len := v)
  {
    var r := WithLen(h, v);
    assert r[VER_IHL_OFS] == h[VER_IHL_OFS] && r[TOS_OFS] == h[TOS_OFS] && r[TTL_OFS] == h[TTL_OFS] && r[PROTO_OFS] == h[PROTO_OFS];
    U16Same(r, h, ID_OFS);
    U16Same(r, h, FRAG_OFS);
    U16Same(r, h, CHKSUM_OFS);
    U32Same(r, h, SADDR_OFS);
    U32Same(r, h, DADDR_OFS);
    assert Version(r) == Version(h);
    assert Ihl(r) == Ihl(h);
    assert Tos(r) == Tos(h);
    assert Len(r) == v;
    assert Id(r) == Id(h);
    assert FlagBits(r) == FlagBits(h);
    assert FragOfs(r) == FragOfs(h);
    assert Ttl(r) == Ttl(h);
    assert Proto(r) == Proto(h);
    assert Chksum(r) == Chksum(h);
    assert Saddr(r) == Saddr(h);
    assert Daddr(r) == Daddr(h);
  }

  lemma EncodeWithTtl(f: Fields, v: bv8)
    ensures WithTtl(Encode(f), v) == Encode(f.(ttl := v))
  {
    DecodeEncode(f);
    DecodeWithTtl(Encode(f), v);
    EncodeDecode(WithTtl(Encode(f), v));
  }

  lemma DecodeWithTtl(h: Header, v: bv8)
    ensures Decode(WithTtl(h, v)) == Decode(h).(ttl := v)
  {
    var r := WithTtl(h, v);
    assert r[VER_IHL_OFS] == h[VER_IHL_OFS] && r[TOS_OFS] == h[TOS_OFS] && r[PROTO_OFS] == h[PROTO_OFS];
    U16Same(r, h, LEN_OFS);
    U16Same(r, h, ID_OFS);
    U16Same(r, h, FRAG_OFS);
    U16Same(r, h, CHKSUM_OFS);
    U32Same(r, h, SADDR_OFS);
    U32Same(r, h, DADDR_OFS);
    assert Version(r) == Version(h);
    assert Ihl(r) == Ihl(h);
    assert Tos(r) == Tos(h);
    assert Len(r) == Len(h);
    assert Id(r) == Id(h);
    assert FlagBits(r) == FlagBits(h);
    assert FragOfs(r) == FragOfs(h);
    assert Ttl(r) == v;
    assert Proto(r) == Proto(h);
    assert Chksum(r) == Chksum(h);
    assert Saddr(r) == Saddr(h);
    assert Daddr(r) == Daddr(h);
  }

  lemma EncodeWithProto(f: Fields, v: bv8)
    ensures WithProto(Encode(f), v) == Encode(f.(proto := v))
  {
    DecodeEncode(f);
    DecodeWithProto(Encode(f), v);
    EncodeDecode(WithProto(Encode(f), v));
  }

  lemma DecodeWithProto(h: Header, v: bv8)
    ensures Decode(WithProto(h, v)) == Decode(h).(proto := v)
  {
    var r := WithProto(h, v);
    assert r[VER_IHL_OFS] == h[VER_IHL_OFS] && r[TOS_OFS] == h[TOS_OFS] && r[TTL_OFS] == h[TTL_OFS];
    U16Same(r, h, LEN_OFS);
    U16Same(r, h, ID_OFS);
    U16Same(r, h, FRAG_OFS);
    U16Same(r, h, CHKSUM_OFS);
    U32Same(r, h, SADDR_OFS);
    U32Same(r, h, DADDR_OFS);
    assert Version(r) == Version(h);
    assert Ihl(r) == Ihl(h);
    assert Tos(r) == Tos(h);
    assert Len(r) == Len(h);
    assert Id(r) == Id(h);
    assert FlagBits(r) == FlagBits(h);
    assert FragOfs(r) == FragOfs(h);
    assert Ttl(r) == Ttl(h);
    assert Proto(r) == v;
    assert Chksum(r) == Chksum(h);
    assert Saddr(r) == Saddr(h);
    assert Daddr(r) == Daddr(h);
  }

  lemma EncodeWithSaddr(f: Fields, v: bv32)
    ensures WithSaddr(Encode(f), v) == Encode(f.(saddr := v))
  {
    DecodeEncode(f);
    DecodeWithSaddr(Encode(f), v);
    EncodeDecode(WithSaddr(Encode(f), v));
  }

  lemma DecodeWithSaddr(h: Header, v: bv32)
    ensures Decode(WithSaddr(h, v)) == Decode(h).(saddr := v)
  {
    var r := WithSaddr(h, v);
    assert r[VER_IHL_OFS] == h[VER_IHL_OFS] && r[TOS_OFS] == h[TOS_OFS] && r[TTL_OFS] == h[TTL_OFS] && r[PROTO_OFS] == h[PROTO_OFS];
    U16Same(r, h, LEN_OFS);
    U16Same(r, h, ID_OFS);
    U16Same(r, h, FRAG_OFS);
    U16Same(r, h, CHKSUM_OFS);
    U32Same(r, h, DADDR_OFS);
    assert Version(r) == Version(h);
    assert Ihl(r) == Ihl(h);
    assert Tos(r) == Tos(h);
    assert Len(r) == Len(h);
    assert Id(r) == Id(h);
    assert FlagBits(r) == FlagBits(h);
    assert FragOfs(r) == FragOfs(h);
    assert Ttl(r) == Ttl(h);
    assert Proto(r) == Proto(h);
    assert Chksum(r) == Chksum(h);
    assert Saddr(r) == v;
    assert Daddr(r) == Daddr(h);
  }

  lemma EncodeWithDaddr(f: Fields, v: bv32)
    ensures WithDaddr(Encode(f), v) == Encode(f.(daddr := v))
  {
    DecodeEncode(f);
    DecodeWithDaddr(Encode(f), v);
    EncodeDecode(WithDaddr(Encode(f), v));
  }

  lemma DecodeWithDaddr(h: Header, v: bv32)
    ensures Decode(WithDaddr(h, v)) == Decode(h).(daddr := v)
  {
    var r := WithDaddr(h, v);
    assert r[VER_IHL_OFS] == h[VER_IHL_OFS] && r[TOS_OFS] == h[TOS_OFS] && r[TTL_OFS] == h[TTL_OFS] && r[PROTO_OFS] == h[PROTO_OFS];
    U16Same(r, h, LEN_OFS);
    U16Same(r, h, ID_OFS);
    U16Same(r, h, FRAG_OFS);
    U16Same(r, h, CHKSUM_OFS);
    U32Same(r, h, SADDR_OFS);
    assert Version(r) == Version(h);
    assert Ihl(r) == Ihl(h);
    assert Tos(r) == Tos(h);
    assert Len(r) == Len(h);
    assert Id(r) == Id(h);
    assert FlagBits(r) == FlagBits(h);
    assert FragOfs(r) == FragOfs(h);
    assert Ttl(r) == Ttl(h);
    assert Proto(r) == Proto(h);
    assert Chksum(r) == Chksum(h);
    assert Saddr(r) == Saddr(h);
    assert Daddr(r) == v;
  }

  lemma EncodeWithTos(f: Fields, v: bv8)
    ensures WithTos(Encode(f), v) == Encode(f.(tos := v))
  {
    DecodeEncode(f);
    DecodeWithTos(Encode(f), v);
    EncodeDecode(WithTos(Encode(f), v));
  }

  lemma DecodeWithTos(h: Header, v: bv8)
    ensures Decode(WithTos(h, v)) == Decode(h).(tos := v)
  {
    var r := WithTos(h, v);
    assert r[VER_IHL_OFS] == h[VER_IHL_OFS] && r[TTL_OFS] == h[TTL_OFS] && r[PROTO_OFS] == h[PROTO_OFS];
    U16Same(r, h, LEN_OFS);
    U16Same(r, h, ID_OFS);
    U16Same(r, h, FRAG_OFS);
    U16Same(r, h, CHKSUM_OFS);
    U32Same(r, h, SADDR_OFS);
    U32Same(r, h, DADDR_OFS);
    assert Version(r) == Version(h);
    assert Ihl(r) == Ihl(h);
    assert Tos(r) == v;
    assert Len(r) == Len(h);
    assert Id(r) == Id(h);
    assert FlagBits(r) == FlagBits(h);
    assert FragOfs(r) == FragOfs(h);
    assert Ttl(r) == Ttl(h);
    assert Proto(r) == Proto(h);
    assert Chksum(r) == Chksum(h);
    assert Saddr(r) == Saddr(h);
    assert Daddr(r) == Daddr(h);
  }

  lemma EncodeWithId(f: Fields, v: bv16)
    ensures WithId(Encode(f), v) == Encode(f.(id := v))
  {
    DecodeEncode(f);
    DecodeWithId(Encode(f), v);
    EncodeDecode(WithId(Encode(f), v));
  }

  lemma DecodeWithId(h: Header, v: bv16)
    ensures Decode(WithId(h, v)) == Decode(h).(id := v)
  {
    var r := WithId(h, v);
    assert r[VER_IHL_OFS] == h[VER_IHL_OFS] && r[TOS_OFS] == h[TOS_OFS] && r[TTL_OFS] == h[TTL_OFS] && r[PROTO_OFS] == h[PROTO_OFS];
    U16Same(r, h, LEN_OFS);
    U16Same(r, h, FRAG_OFS);
    U16Same(r, h, CHKSUM_OFS);
    U32Same(r, h, SADDR_OFS);
    U32Same(r, h, DADDR_OFS);
    assert Version(r) == Version(h);
    assert Ihl(r) == Ihl(h);
    assert Tos(r) == Tos(h);
    assert Len(r) == Len(h);
    assert Id(r) == v;
    assert FlagBits(r) == FlagBits(h);
    assert FragOfs(r) == FragOfs(h);
    assert Ttl(r) == Ttl(h);
    assert Proto(r) == Proto(h);
    assert Chksum(r) == Chksum(h);
    assert Saddr(r) == Saddr(h);
    assert Daddr(r) == Daddr(h);
  }

  lemma EncodeWithFlagBits(f: Fields, v: bv3)
    ensures WithFlagBits(Encode(f), v) == Encode(f.(flagBits := v))
  {
    DecodeEncode(f);
    DecodeWithFlagBits(Encode(f), v);
    EncodeDecode(WithFlagBits(Encode(f), v));
  }

  lemma DecodeWithFlagBits(h: Header, v: bv3)
    ensures Decode(WithFlagBits(h, v)) == Decode(h).(flagBits := v)
  {
    var r := WithFlagBits(h, v);
    assert r[VER_IHL_OFS] == h[VER_IHL_OFS] && r[TOS_OFS] == h[TOS_OFS] && r[TTL_OFS] == h[TTL_OFS] && r[PROTO_OFS] == h[PROTO_OFS];
    U16Same(r, h, LEN_OFS);
    U16Same(r, h, ID_OFS);
    U16Same(r, h, CHKSUM_OFS);
    U32Same(r, h, SADDR_OFS);
    U32Same(r, h, DADDR_OFS);
    assert Version(r) == Version(h);
    assert Ihl(r) == Ihl(h);
    assert Tos(r) == Tos(h);
    assert Len(r) == Len(h);
    assert Id(r) == Id(h);
    assert FlagBits(r) == v;
    assert FragOfs(r) == FragOfs(h);
    assert Ttl(r) == Ttl(h);
    assert Proto(r) == Proto(h);
    assert Chksum(r) == Chksum(h);
    assert Saddr(r) == Saddr(h);
    assert Daddr(r) == Daddr(h);
  }

  lemma EncodeWithFragOfs(f: Fields, v: bv13)
    ensures WithFragOfs(Encode(f), v) == Encode(f.(fragOfs := v))
  {
    DecodeEncode(f);
    DecodeWithFragOfs(Encode(f), v);
    EncodeDecode(WithFragOfs(Encode(f), v));
  }

  lemma DecodeWithFragOfs(h: Header, v: bv13)
    ensures Decode(WithFragOfs(h, v)) == Decode(h).(fragOfs := v)
  {
    var r := WithFragOfs(h, v);
    assert r[VER_IHL_OFS] == h[VER_IHL_OFS] && r[TOS_OFS] == h[TOS_OFS] && r[TTL_OFS] == h[TTL_OFS] && r[PROTO_OFS] == h[PROTO_OFS];
    U16Same(r, h, LEN_OFS);
    U16Same(r, h, ID_OFS);
    U16Same(r, h, CHKSUM_OFS);
    U32Same(r, h, SADDR_OFS);
    U32Same(r, h, DADDR_OFS);
    assert Version(r) == Version(h);
    assert Ihl(r) == Ihl(h);
    assert Tos(r) == Tos(h);
    assert Len(r) == Len(h);
    assert Id(r) == Id(h);
    assert FlagBits(r) == FlagBits(h);
    assert FragOfs(r) == v;
    assert Ttl(r) == Ttl(h);
    assert Proto(r) == Proto(h);
    assert Chksum(r) == Chksum(h);
    assert Saddr(r) == Saddr(h);
    assert Daddr(r) == Daddr(h);
  }

  lemma EncodeWithChksum(f: Fields, v: bv16)
    ensures WithChksum(Encode(f), v) == Encode(f.(chksum := v))
  {
    DecodeEncode(f);
    DecodeWithChksum(Encode(f), v);
    EncodeDecode(WithChksum(Encode(f), v));
  }

  lemma DecodeWithChksum(h: Header, v: bv16)
    ensures Decode(WithChksum(h, v)) == Decode(h).(chksum := v)
  {
    var r := WithChksum(h, v);
    assert r[VER_IHL_OFS] == h[VER_IHL_OFS] && r[TOS_OFS] == h[TOS_OFS] && r[TTL_OFS] == h[TTL_OFS] && r[PROTO_OFS] == h[PROTO_OFS];
    U16Same(r, h, LEN_OFS);
    U16Same(r, h, ID_OFS);
    U16Same(r, h, FRAG_OFS);
    U32Same(r, h, SADDR_OFS);
    U32Same(r, h, DADDR_OFS);
    assert Version(r) == Version(h);
    assert Ihl(r) == Ihl(h);
    assert Tos(r) == Tos(h);
    assert Len(r) == Len(h);
    assert Id(r) == Id(h);
    assert FlagBits(r) == FlagBits(h);
    assert FragOfs(r) == FragOfs(h);
    assert Ttl(r) == Ttl(h);
    assert Proto(r) == Proto(h);
    assert Chksum(r) == v;
    assert Saddr(r) == Saddr(h);
    assert Daddr(r) == Daddr(h);
  }
}
