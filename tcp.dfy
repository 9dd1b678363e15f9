/** The TCP header of section 3.1 of RFC 793 as tcp_hdr lays it out: 20 bytes
    without options. Byte 12 holds the data offset (high nibble) over the
    reserved bits, and byte 13 is the flag byte, which tcp_flag_view also
    exposes as eight named bits, CWR first and FIN last. */
module Tcp {
  import opened Wire
  import opened Outcomes

  /** sizeof(tcp_hdr) with an empty options array. */
  const TCP_HDR_LEN: nat := 20

  // Byte offsets of the fields inside the header.
  const SPORT_OFS: nat := 0
  const DPORT_OFS: nat := 2
  const SEQNUM_OFS: nat := 4
  const ACKNUM_OFS: nat := 8
  const DATAOFS_OFS: nat := 12
  const FLAGS_OFS: nat := 13
  const WINDOW_OFS: nat := 14
  const CHKSUM_OFS: nat := 16
  const URGPTR_OFS: nat := 18

  type Header = h: seq<bv8> | |h| == TCP_HDR_LEN witness seq(TCP_HDR_LEN, _ => 0)

  // ===== tcp_flag_t and the flag byte =====

  datatype TcpFlag = Fin | Syn | Rst | Psh | Ack | Urg | Ece | Cwr

  /** Bit position of each flag in the flag byte, counted from the least significant. */
  function FlagIndex(f: TcpFlag): (n: nat)
    ensures n < 8
  {
    match f
    case Fin => 0
    case Syn => 1
    case Rst => 2
    case Psh => 3
    case Ack => 4
    case Urg => 5
    case Ece => 6
    case Cwr => 7
  }

  /** The enumerator value TCP_FLAG_x == 1 << index. */
  function FlagMask(f: TcpFlag): (m: bv8)
    ensures IsSingleBit(m)
  {
    match f
    case Fin => 0x01
    case Syn => 0x02
    case Rst => 0x04
    case Psh => 0x08
    case Ack => 0x10
    case Urg => 0x20
    case Ece => 0x40
    case Cwr => 0x80
  }

  /** The masks are the powers of two of the flags' positions, pairwise disjoint. */
  lemma FlagMasksDistinctBits(f: TcpFlag, g: TcpFlag)
    ensures FlagMask(f) == (1 as bv8) << FlagIndex(f)
    ensures f != g ==> FlagMask(f) & FlagMask(g) == 0
  {
  }

  function Flags(h: Header): bv8 { h[FLAGS_OFS] }

  predicate FlagSet(h: Header, f: TcpFlag)
  {
    h[FLAGS_OFS] & FlagMask(f) != 0
  }

  function WithFlags(h: Header, v: bv8): (r: Header)
    ensures Flags(r) == v && AgreeOutside(r, h, FLAGS_OFS, FLAGS_OFS + 1)
  {
    h[FLAGS_OFS := v]
  }

  /** Setting one named bit (flags.syn = 1, ...) leaves the seven others alone. */
  function WithFlag(h: Header, f: TcpFlag, on: bool): (r: Header)
    ensures FlagSet(r, f) == on
    ensures forall g :: g != f ==> FlagSet(r, g) == FlagSet(h, g)
    ensures AgreeOutside(r, h, FLAGS_OFS, FLAGS_OFS + 1)
  {
    h[FLAGS_OFS := WithBit(h[FLAGS_OFS], FlagMask(f), on)]
  }

  function Bit(f: bool, m: bv8): bv8 { if f then m else 0 }

  /** The flag byte is exactly the eight named bits, CWR most significant. */
  lemma FlagByteIsNamedBits(h: Header)
    ensures Flags(h) == Bit(FlagSet(h, Cwr), 0x80) | Bit(FlagSet(h, Ece), 0x40)
                      | Bit(FlagSet(h, Urg), 0x20) | Bit(FlagSet(h, Ack), 0x10)
                      | Bit(FlagSet(h, Psh), 0x08) | Bit(FlagSet(h, Rst), 0x04)
                      | Bit(FlagSet(h, Syn), 0x02) | Bit(FlagSet(h, Fin), 0x01)
  {
  }

  /** Setting syn alone on a cleared flag byte yields 0x02. */
  lemma SynAloneIsTwo(h: Header)
    requires Flags(h) == 0
    ensures Flags(WithFlag(h, Syn, true)) == 0x02
  {
  }

  // ===== byte 12: data offset over reserved =====

  function DataOfs(h: Header): bv4 { HiNibble(h[DATAOFS_OFS]) }

  function Reserved(h: Header): bv4 { LoNibble(h[DATAOFS_OFS]) }

  function WithDataOfs(h: Header, v: bv4): (r: Header)
    ensures DataOfs(r) == v && Reserved(r) == Reserved(h)
    ensures AgreeOutside(r, h, DATAOFS_OFS, DATAOFS_OFS + 1)
  {
    h[DATAOFS_OFS := WithHiNibble(h[DATAOFS_OFS], v)]
  }

  function WithReserved(h: Header, v: bv4): (r: Header)
    ensures Reserved(r) == v && DataOfs(r) == DataOfs(h)
    ensures AgreeOutside(r, h, DATAOFS_OFS, DATAOFS_OFS + 1)
  {
    h[DATAOFS_OFS := WithLoNibble(h[DATAOFS_OFS], v)]
  }

  // ===== the word fields =====

  function Sport(h: Header): bv16 { U16At(h, SPORT_OFS) }

  function WithSport(h: Header, v: bv16): (r: Header)
    ensures Sport(r) == v && AgreeOutside(r, h, SPORT_OFS, SPORT_OFS + 2)
  {
    WithU16(h, SPORT_OFS, v)
  }

  function Dport(h: Header): bv16 { U16At(h, DPORT_OFS) }

  function WithDport(h: Header, v: bv16): (r: Header)
    ensures Dport(r) == v && AgreeOutside(r, h, DPORT_OFS, DPORT_OFS + 2)
  {
    WithU16(h, DPORT_OFS, v)
  }

  function Seqnum(h: Header): bv32 { U32At(h, SEQNUM_OFS) }

  function WithSeqnum(h: Header, v: bv32): (r: Header)
    ensures Seqnum(r) == v && AgreeOutside(r, h, SEQNUM_OFS, SEQNUM_OFS + 4)
  {
    WithU32(h, SEQNUM_OFS, v)
  }

  function Acknum(h: Header): bv32 { U32At(h, ACKNUM_OFS) }

  function WithAcknum(h: Header, v: bv32): (r: Header)
    ensures Acknum(r) == v && AgreeOutside(r, h, ACKNUM_OFS, ACKNUM_OFS + 4)
  {
    WithU32(h, ACKNUM_OFS, v)
  }

  function Window(h: Header): bv16 { U16At(h, WINDOW_OFS) }

  function WithWindow(h: Header, v: bv16): (r: Header)
    ensures Window(r) == v && AgreeOutside(r, h, WINDOW_OFS, WINDOW_OFS + 2)
  {
    WithU16(h, WINDOW_OFS, v)
  }

  function Chksum(h: Header): bv16 { U16At(h, CHKSUM_OFS) }

  function WithChksum(h: Header, v: bv16): (r: Header)
    ensures Chksum(r) == v && AgreeOutside(r, h, CHKSUM_OFS, CHKSUM_OFS + 2)
  {
    WithU16(h, CHKSUM_OFS, v)
  }

  function Urgptr(h: Header): bv16 { U16At(h, URGPTR_OFS) }

  function WithUrgptr(h: Header, v: bv16): (r: Header)
    ensures Urgptr(r) == v && AgreeOutside(r, h, URGPTR_OFS, URGPTR_OFS + 2)
  {
    WithU16(h, URGPTR_OFS, v)
  }

  // ===== the header as a record of its fields, and its wire encoding =====

  datatype Fields = Fields(
    sport: bv16, dport: bv16, seqnum: bv32, acknum: bv32,
    dataofs: bv4, reserved: bv4, flags: bv8,
    window: bv16, chksum: bv16, urgptr: bv16)

  function Decode(h: Header): Fields
  {
    Fields(Sport(h), Dport(h), Seqnum(h), Acknum(h), DataOfs(h), Reserved(h),
           Flags(h), Window(h), Chksum(h), Urgptr(h))
  }

  function Encode(f: Fields): Header
  {
    EncodeFront(f) + EncodeBack(f)
  }

  /** Bytes 0-11: the ports and the two sequence numbers. */
  function EncodeFront(f: Fields): (b: seq<bv8>)
    ensures |b| == 12
  {
    Be16(f.sport) + Be16(f.dport) + Be32(f.seqnum) + Be32(f.acknum)
  }

  /** Bytes 12-19: data offset and reserved bits, flags, window, checksum,
      urgent pointer. */
  function EncodeBack(f: Fields): (b: seq<bv8>)
    ensures |b| == 8
  {
    var mid: seq<bv8> := [WithLoNibble(WithHiNibble(0, f.dataofs), f.reserved), f.flags];
    mid + Be16(f.window) + Be16(f.chksum) + Be16(f.urgptr)
  }

  /** Where Encode puts each field: the fields in declaration order, each in
      network byte order. */
  lemma EncodeLayout(f: Fields)
    ensures Encode(f)[0..2] == Be16(f.sport) && Encode(f)[2..4] == Be16(f.dport)
    ensures Encode(f)[4..8] == Be32(f.seqnum) && Encode(f)[8..12] == Be32(f.acknum)
    ensures Encode(f)[12] == WithLoNibble(WithHiNibble(0, f.dataofs), f.reserved)
    ensures Encode(f)[13] == f.flags
    ensures Encode(f)[14..16] == Be16(f.window) && Encode(f)[16..18] == Be16(f.chksum)
    ensures Encode(f)[18..20] == Be16(f.urgptr)
  {
    var h := Encode(f);
    DecodeEncode(f);
    Be16OfSlice(h, SPORT_OFS);
    Be16OfSlice(h, DPORT_OFS);
    Be32OfSlice(h, SEQNUM_OFS);
    Be32OfSlice(h, ACKNUM_OFS);
    Be16OfSlice(h, WINDOW_OFS);
    Be16OfSlice(h, CHKSUM_OFS);
    Be16OfSlice(h, URGPTR_OFS);
  }

  /** Every field survives encoding: the offsets of Encode are those of the getters. */
  lemma DecodeEncode(f: Fields)
    ensures Decode(Encode(f)) == f
  {
    var front, back := EncodeFront(f), EncodeBack(f);
    FrontFields(f);
    BackFields(f);
    U16InConcat(front, back, SPORT_OFS);
    U16InConcat(front, back, DPORT_OFS);
    U32InConcat(front, back, SEQNUM_OFS);
    U32InConcat(front, back, ACKNUM_OFS);
    U16InConcat(front, back, WINDOW_OFS);
    U16InConcat(front, back, CHKSUM_OFS);
    U16InConcat(front, back, URGPTR_OFS);
    assert Encode(f)[DATAOFS_OFS] == back[0] && Encode(f)[FLAGS_OFS] == back[1];
  }

  /** The words of bytes 0-11 read back the ports and sequence numbers. */
  lemma FrontFields(f: Fields)
    ensures U16At(EncodeFront(f), 0) == f.sport && U16At(EncodeFront(f), 2) == f.dport
    ensures U32At(EncodeFront(f), 4) == f.seqnum && U32At(EncodeFront(f), 8) == f.acknum
  {
    var a, b, c, d := Be16(f.sport), Be16(f.dport), Be32(f.seqnum), Be32(f.acknum);
    U16InConcat(a + b + c, d, 0);
    U16InConcat(a + b, c, 0);
    U16InConcat(a, b, 0);
    U16InConcat(a + b + c, d, 2);
    U16InConcat(a + b, c, 2);
    U16InConcat(a, b, 2);
    U32InConcat(a + b + c, d, 4);
    U32InConcat(a + b, c, 4);
    U32InConcat(a + b + c, d, 8);
  }

  /** The bytes of 12-19 read back the offset/reserved byte, the flags, the
      window, the checksum and the urgent pointer. */
  lemma BackFields(f: Fields)
    ensures EncodeBack(f)[0] == WithLoNibble(WithHiNibble(0, f.dataofs), f.reserved)
    ensures EncodeBack(f)[1] == f.flags
    ensures U16At(EncodeBack(f), 2) == f.window && U16At(EncodeBack(f), 4) == f.chksum
    ensures U16At(EncodeBack(f), 6) == f.urgptr
  {
    var m: seq<bv8> := [WithLoNibble(WithHiNibble(0, f.dataofs), f.reserved), f.flags];
    var a, b, c := Be16(f.window), Be16(f.chksum), Be16(f.urgptr);
    U16InConcat(m + a + b, c, 2);
    U16InConcat(m + a, b, 2);
    U16InConcat(m, a, 2);
    U16InConcat(m + a + b, c, 4);
    U16InConcat(m + a, b, 4);
    U16InConcat(m + a + b, c, 6);
  }

  /** Every 20-byte header is the encoding of its fields. */
  lemma EncodeDecode(h: Header)
    ensures Encode(Decode(h)) == h
  {
    EncodeDecodeFront(h);
    EncodeDecodeBack(h);
    assert h == h[..12] + h[12..];
  }

  lemma EncodeDecodeFront(h: Header)
    ensures EncodeFront(Decode(h)) == h[..12]
  {
    Be16OfSlice(h, SPORT_OFS);
    Be16OfSlice(h, DPORT_OFS);
    Be32OfSlice(h, SEQNUM_OFS);
    Be32OfSlice(h, ACKNUM_OFS);
    assert h[..12] == h[0..2] + h[2..4] + h[4..8] + h[8..12];
  }

  lemma EncodeDecodeBack(h: Header)
    ensures EncodeBack(Decode(h)) == h[12..]
  {
    var d := Decode(h);
    Be16OfSlice(h, WINDOW_OFS);
    Be16OfSlice(h, CHKSUM_OFS);
    Be16OfSlice(h, URGPTR_OFS);
    var mid: seq<bv8> := [WithLoNibble(WithHiNibble(0, d.dataofs), d.reserved), d.flags];
    assert mid == h[12..14] by {
      NibblesDetermineByte(mid[0], h[DATAOFS_OFS]);
    }
    assert h[12..] == h[12..14] + h[14..16] + h[16..18] + h[18..20];
  }

  // ===== the setters on encoded headers =====
  // Writing one field of an encoded header gives the encoding of the record with
  // that field replaced: the setter changes its own field and no other.

  lemma EncodeWithSport(f: Fields, v: bv16)
    ensures WithSport(Encode(f), v) == Encode(f.(sport := v))
  {
    DecodeEncode(f);
    DecodeWithSport(Encode(f), v);
    EncodeDecode(WithSport(Encode(f), v));
  }

  lemma DecodeWithSport(h: Header, v: bv16)
    ensures Decode(WithSport(h, v)) == Decode(h).(sport := v)
  {
    var r := WithSport(h, v);
    U16Same(r, h, DPORT_OFS);
    U32Same(r, h, SEQNUM_OFS);
    U32Same(r, h, ACKNUM_OFS);
    assert r[DATAOFS_OFS] == h[DATAOFS_OFS] && r[FLAGS_OFS] == h[FLAGS_OFS];
    U16Same(r, h, WINDOW_OFS);
    U16Same(r, h, CHKSUM_OFS);
    U16Same(r, h, URGPTR_OFS);
  }

  lemma EncodeWithDport(f: Fields, v: bv16)
    ensures WithDport(Encode(f), v) == Encode(f.(dport := v))
  {
    DecodeEncode(f);
    DecodeWithDport(Encode(f), v);
    EncodeDecode(WithDport(Encode(f), v));
  }

  lemma DecodeWithDport(h: Header, v: bv16)
    ensures Decode(WithDport(h, v)) == Decode(h).(dport := v)
  {
    var r := WithDport(h, v);
    U16Same(r, h, SPORT_OFS);
    U32Same(r, h, SEQNUM_OFS);
    U32Same(r, h, ACKNUM_OFS);
    assert r[DATAOFS_OFS] == h[DATAOFS_OFS] && r[FLAGS_OFS] == h[FLAGS_OFS];
    U16Same(r, h, WINDOW_OFS);
    U16Same(r, h, CHKSUM_OFS);
    U16Same(r, h, URGPTR_OFS);
  }

  lemma EncodeWithSeqnum(f: Fields, v: bv32)
    ensures WithSeqnum(Encode(f), v) == Encode(f.(seqnum := v))
  {
    DecodeEncode(f);
    DecodeWithSeqnum(Encode(f), v);
    EncodeDecode(WithSeqnum(Encode(f), v));
  }

  lemma DecodeWithSeqnum(h: Header, v: bv32)
    ensures Decode(WithSeqnum(h, v)) == Decode(h).(seqnum := v)
  {
    var r := WithSeqnum(h, v);
    U16Same(r, h, SPORT_OFS);
    U16Same(r, h, DPORT_OFS);
    U32Same(r, h, ACKNUM_OFS);
    assert r[DATAOFS_OFS] == h[DATAOFS_OFS] && r[FLAGS_OFS] == h[FLAGS_OFS];
    U16Same(r, h, WINDOW_OFS);
    U16Same(r, h, CHKSUM_OFS);
    U16Same(r, h, URGPTR_OFS);
  }

  lemma EncodeWithFlag(f: Fields, g: TcpFlag, on: bool)
    ensures WithFlag(Encode(f), g, on) == Encode(f.(flags := WithBit(f.flags, FlagMask(g), on)))
  {
    DecodeEncode(f);
    DecodeWithFlag(Encode(f), g, on);
    EncodeDecode(WithFlag(Encode(f), g, on));
  }

  lemma DecodeWithFlag(h: Header, g: TcpFlag, on: bool)
    ensures Decode(WithFlag(h, g, on)) == Decode(h).(flags := WithBit(Flags(h), FlagMask(g), on))
  {
    var r := WithFlag(h, g, on);
    U16Same(r, h, SPORT_OFS);
    U16Same(r, h, DPORT_OFS);
    U32Same(r, h, SEQNUM_OFS);
    U32Same(r, h, ACKNUM_OFS);
    assert r[DATAOFS_OFS] == h[DATAOFS_OFS];
    U16Same(r, h, WINDOW_OFS);
    U16Same(r, h, CHKSUM_OFS);
    U16Same(r, h, URGPTR_OFS);
  }

  lemma EncodeWithAcknum(f: Fields, v: bv32)
    ensures WithAcknum(Encode(f), v) == Encode(f.(acknum := v))
  {
    DecodeEncode(f);
    DecodeWithAcknum(Encode(f), v);
    EncodeDecode(WithAcknum(Encode(f), v));
  }

  lemma DecodeWithAcknum(h: Header, v: bv32)
    ensures Decode(WithAcknum(h, v)) == Decode(h).(acknum := v)
  {
    var r := WithAcknum(h, v);
    U16Same(r, h, SPORT_OFS);
    U16Same(r, h, DPORT_OFS);
    U32Same(r, h, SEQNUM_OFS);
    assert r[DATAOFS_OFS] == h[DATAOFS_OFS] && r[FLAGS_OFS] == h[FLAGS_OFS];
    U16Same(r, h, WINDOW_OFS);
    U16Same(r, h, CHKSUM_OFS);
    U16Same(r, h, URGPTR_OFS);
  }

  lemma EncodeWithWindow(f: Fields, v: bv16)
    ensures WithWindow(Encode(f), v) == Encode(f.(window := v))
  {
    DecodeEncode(f);
    DecodeWithWindow(Encode(f), v);
    EncodeDecode(WithWindow(Encode(f), v));
  }

  lemma DecodeWithWindow(h: Header, v: bv16)
    ensures Decode(WithWindow(h, v)) == Decode(h).(window := v)
  {
    var r := WithWindow(h, v);
    U16Same(r, h, SPORT_OFS);
    U16Same(r, h, DPORT_OFS);
    U32Same(r, h, SEQNUM_OFS);
    U32Same(r, h, ACKNUM_OFS);
    assert r[DATAOFS_OFS] == h[DATAOFS_OFS] && r[FLAGS_OFS] == h[FLAGS_OFS];
    U16Same(r, h, CHKSUM_OFS);
    U16Same(r, h, URGPTR_OFS);
  }

  lemma EncodeWithChksum(f: Fields, v: bv16)
    ensures WithChksum(Encode(f), v) == Encode(f.(chksum := v))
  {
    DecodeEncode(f);
    DecodeWithChksum(Encode(f), v);
    EncodeDecode(WithChksum(Encode(f), v));
  }

  lemma DecodeWithChksum(h: Header, v: bv16)
    ensures Decode(WithChksum(h, v)) == Decode(h).(chksum := v)
  {
    var r := WithChksum(h, v);
    U16Same(r, h, SPORT_OFS);
    U16Same(r, h, DPORT_OFS);
    U32Same(r, h, SEQNUM_OFS);
    U32Same(r, h, ACKNUM_OFS);
    assert r[DATAOFS_OFS] == h[DATAOFS_OFS] && r[FLAGS_OFS] == h[FLAGS_OFS];
    U16Same(r, h, WINDOW_OFS);
    U16Same(r, h, URGPTR_OFS);
  }

  lemma EncodeWithUrgptr(f: Fields, v: bv16)
    ensures WithUrgptr(Encode(f), v) == Encode(f.(urgptr := v))
  {
    DecodeEncode(f);
    DecodeWithUrgptr(Encode(f), v);
    EncodeDecode(WithUrgptr(Encode(f), v));
  }

  lemma DecodeWithUrgptr(h: Header, v: bv16)
    ensures Decode(WithUrgptr(h, v)) == Decode(h).(urgptr := v)
  {
    var r := WithUrgptr(h, v);
    U16Same(r, h, SPORT_OFS);
    U16Same(r, h, DPORT_OFS);
    U32Same(r, h, SEQNUM_OFS);
    U32Same(r, h, ACKNUM_OFS);
    assert r[DATAOFS_OFS] == h[DATAOFS_OFS] && r[FLAGS_OFS] == h[FLAGS_OFS];
    U16Same(r, h, WINDOW_OFS);
    U16Same(r, h, CHKSUM_OFS);
  }

  // ===== tcp_option_kind_t (IANA TCP parameters registry) =====

  datatype OptionKind =
    | Eol | Nop | Mss | WindowScale | SackPerm | Sack | Echo | EchoReply | Timestamp
    | PartialPerm | PartialProf | Cc | CcNew | CcEcho | AltChkReq | AltChkDat
    | Skeeter | Bubba | TrailerChk | Md5Sig | ScpsCapable | SelNegAck | RecordBounds
    | CorruptExp | Snap | Unassigned25 | CompressFilt | QuickStart | UserTimeout
    | AuthOpt | Multipath | FastOpenCookie | EncryptNegot | AccEcnOrder0 | AccEcnOrder1
    | Rfc3692Exp1 | Rfc3692Exp2

  function OptionKindCode(k: OptionKind): (c: nat)
    ensures c <= 254
  {
    match k
    case Eol => 0
    case Nop => 1
    case Mss => 2
    case WindowScale => 3
    case SackPerm => 4
    case Sack => 5
    case Echo => 6
    case EchoReply => 7
    case Timestamp => 8
    case PartialPerm => 9
    case PartialProf => 10
    case Cc => 11
    case CcNew => 12
    case CcEcho => 13
    case AltChkReq => 14
    case AltChkDat => 15
    case Skeeter => 16
    case Bubba => 17
    case TrailerChk => 18
    case Md5Sig => 19
    case ScpsCapable => 20
    case SelNegAck => 21
    case RecordBounds => 22
    case CorruptExp => 23
    case Snap => 24
    case Unassigned25 => 25
    case CompressFilt => 26
    case QuickStart => 27
    case UserTimeout => 28
    case AuthOpt => 29
    case Multipath => 30
    case FastOpenCookie => 34
    case EncryptNegot => 69
    case AccEcnOrder0 => 172
    case AccEcnOrder1 => 174
    case Rfc3692Exp1 => 253
    case Rfc3692Exp2 => 254
  }

  /** The kind named by a code byte, if the enumeration has one. */
  function OptionKindOf(c: nat): Option<OptionKind>
  {
    match c
    case 0 => Some(Eol)
    case 1 => Some(Nop)
    case 2 => Some(Mss)
    case 3 => Some(WindowScale)
    case 4 => Some(SackPerm)
    case 5 => Some(Sack)
    case 6 => Some(Echo)
    case 7 => Some(EchoReply)
    case 8 => Some(Timestamp)
    case 9 => Some(PartialPerm)
    case 10 => Some(PartialProf)
    case 11 => Some(Cc)
    case 12 => Some(CcNew)
    case 13 => Some(CcEcho)
    case 14 => Some(AltChkReq)
    case 15 => Some(AltChkDat)
    case 16 => Some(Skeeter)
    case 17 => Some(Bubba)
    case 18 => Some(TrailerChk)
    case 19 => Some(Md5Sig)
    case 20 => Some(ScpsCapable)
    case 21 => Some(SelNegAck)
    case 22 => Some(RecordBounds)
    case 23 => Some(CorruptExp)
    case 24 => Some(Snap)
    case 25 => Some(Unassigned25)
    case 26 => Some(CompressFilt)
    case 27 => Some(QuickStart)
    case 28 => Some(UserTimeout)
    case 29 => Some(AuthOpt)
    case 30 => Some(Multipath)
    case 34 => Some(FastOpenCookie)
    case 69 => Some(EncryptNegot)
    case 172 => Some(AccEcnOrder0)
    case 174 => Some(AccEcnOrder1)
    case 253 => Some(Rfc3692Exp1)
    case 254 => Some(Rfc3692Exp2)
    case _ => None
  }

  /** Option kind codes are distinct: the code determines the kind. */
  lemma OptionKindRoundTrip(k: OptionKind)
    ensures OptionKindOf(OptionKindCode(k)) == Some(k)
  {
  }

  /** A code the enumeration names is that kind's code. */
  lemma OptionKindOfSound(c: nat)
    requires OptionKindOf(c).Some?
    ensures OptionKindCode(OptionKindOf(c).value) == c
  {
    if c < 16 {
      LowKindsSound(c);
    } else if c <= 30 {
      MiddleKindsSound(c);
    } else {
      HighKindsSound(c);
    }
  }

  lemma LowKindsSound(c: nat)
    requires c < 16
    ensures OptionKindCode(OptionKindOf(c).value) == c
  {
  }

  lemma MiddleKindsSound(c: nat)
    requires 16 <= c <= 30
    ensures OptionKindCode(OptionKindOf(c).value) == c
  {
  }

  lemma HighKindsSound(c: nat)
    requires 30 < c && OptionKindOf(c).Some?
    ensures OptionKindCode(OptionKindOf(c).value) == c
  {
  }
}
