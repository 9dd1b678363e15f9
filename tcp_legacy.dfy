/** The older TCP header (the netinet.h of the first snapshot): one storage
    area seen through two structs of the same union. View 1 uses the long
    names and a whole flags byte, view 2 the short names and eight one-bit
    flags. A view is modelled as its list of (name, width in bits) fields in
    declaration order; a field's value is read most-significant-bit first at
    the sum of the widths before it, which is how a big-endian compiler lays
    out bitfields and how the header goes on the wire. */
module LegacyTcp {
  import Wire
  import Tcp

  // ===== the TCP_* flag constants =====

  const TCP_FIN: bv8 := 0x01
  const TCP_SYN: bv8 := 0x02
  const TCP_RST: bv8 := 0x04
  const TCP_PSH: bv8 := 0x08
  const TCP_ACK: bv8 := 0x10
  const TCP_URG: bv8 := 0x20
  const TCP_ECE: bv8 := 0x40
  const TCP_CWR: bv8 := 0x80

  /** The constants in flag order FIN..CWR. */
  const FLAG_CONSTANTS: seq<bv8> := [TCP_FIN, TCP_SYN, TCP_RST, TCP_PSH, TCP_ACK, TCP_URG, TCP_ECE, TCP_CWR]

  /** The constants are eight distinct single-bit masks, the n-th one being
      1 << n, and they agree with the tcp_flag_t enumeration of the newer header. */
  lemma FlagConstantsSingleBits()
    ensures forall n :: 0 <= n < 8 ==> Wire.IsSingleBit(FLAG_CONSTANTS[n])
    ensures forall n :: 0 <= n < 8 ==> FLAG_CONSTANTS[n] == (1 as bv8) << n
    ensures forall n, m :: 0 <= n < m < 8 ==> FLAG_CONSTANTS[n] & FLAG_CONSTANTS[m] == 0
    ensures forall f: Tcp.TcpFlag :: FLAG_CONSTANTS[Tcp.FlagIndex(f)] == Tcp.FlagMask(f)
  {
  }

  // ===== struct layouts =====

  /** The member names of both views of the union. */
  datatype Name =
    | Sport | Dport | Seqnum | Acknum | Dataofs | Reserved | Flags
    | Window | Chksum | Urgptr | Options
    | Spt | Dpt | Sqn | Akn | Dat | Rsv
    | CwrBit | EceBit | UrgBit | AckBit | PshBit | RstBit | SynBit | FinBit
    | Wnd | Chk | Ptr | Opt

  /** A struct member: its name, its bit offset in the storage and its width in bits. */
  datatype Member = Member(name: Name, offset: nat, bits: nat)

  /** View 1: long names, the whole flags byte, ten option words. */
  const VIEW1: seq<Member> := [
    Member(Sport, 0, 16), Member(Dport, 16, 16), Member(Seqnum, 32, 32), Member(Acknum, 64, 32),
    Member(Dataofs, 96, 4), Member(Reserved, 100, 4), Member(Flags, 104, 8),
    Member(Window, 112, 16), Member(Chksum, 128, 16), Member(Urgptr, 144, 16),
    Member(Options, 160, 320)]

  /** View 2: short names, the eight expanded flag bits. */
  const VIEW2: seq<Member> := [
    Member(Spt, 0, 16), Member(Dpt, 16, 16), Member(Sqn, 32, 32), Member(Akn, 64, 32),
    Member(Dat, 96, 4), Member(Rsv, 100, 4),
    Member(CwrBit, 104, 1), Member(EceBit, 105, 1), Member(UrgBit, 106, 1), Member(AckBit, 107, 1),
    Member(PshBit, 108, 1), Member(RstBit, 109, 1), Member(SynBit, 110, 1), Member(FinBit, 111, 1),
    Member(Wnd, 112, 16), Member(Chk, 128, 16), Member(Ptr, 144, 16), Member(Opt, 160, 320)]

  /** The layout rule of a packed struct on a big-endian compiler: the first member
      starts at bit 0 and each member starts where the previous one ends. */
  ghost predicate Packed(view: seq<Member>)
  {
    |view| > 0 && view[0].offset == 0
    && forall i :: 0 < i < |view| ==> view[i].offset == view[i - 1].offset + view[i - 1].bits
  }

  /** Total width of a layout in bits. */
  function Size(view: seq<Member>): nat
  {
    if view == [] then 0 else view[|view| - 1].offset + view[|view| - 1].bits
  }

  /** Bit strings of the storage seen through each member of a view all fit in it. */
  ghost predicate Fits(view: seq<Member>, storageBits: nat)
  {
    forall i :: 0 <= i < |view| ==> view[i].offset + view[i].bits <= storageBits
  }

  // ===== reading a field from the storage =====

  /** The bits of one byte, most significant first. */
  function ByteBits(x: bv8): (r: seq<bool>)
    ensures |r| == 8
  {
    [x & 0x80 != 0, x & 0x40 != 0, x & 0x20 != 0, x & 0x10 != 0,
     x & 0x08 != 0, x & 0x04 != 0, x & 0x02 != 0, x & 0x01 != 0]
  }

  /** The bits of a nibble, most significant first. */
  function NibbleBits(x: bv4): (r: seq<bool>)
    ensures |r| == 4
  {
    [x & 8 != 0, x & 4 != 0, x & 2 != 0, x & 1 != 0]
  }

  /** The storage as a bit string: byte 0 first, each byte MSB first. */
  function Bits(b: seq<bv8>): (r: seq<bool>)
    ensures |r| == 8 * |b|
  {
    if b == [] then [] else ByteBits(b[0]) + Bits(b[1..])
  }

  /** The value of member i of a view, as the bit string it occupies. */
  function Get(b: seq<bv8>, m: Member): (r: seq<bool>)
    requires m.offset + m.bits <= 8 * |b|
    ensures |r| == m.bits
  {
    Bits(b)[m.offset..m.offset + m.bits]
  }

  // ===== the layouts =====

  /** Both views are packed and span the same 480 bits: the fixed 20 bytes plus
      ten 32-bit option words, the 60 bytes of storage of the union. */
  lemma ViewsPacked()
    ensures Packed(VIEW1) && Packed(VIEW2)
    ensures Size(VIEW1) == 480 && Size(VIEW2) == 480
    ensures Fits(VIEW1, 480) && Fits(VIEW2, 480)
    ensures VIEW1[10] == Member(Options, 160, 320) && VIEW2[17] == Member(Opt, 160, 320)
  {
  }

  /** The (view 1, view 2) index pairs of members that alias the same storage. */
  const ALIASES: seq<(nat, nat)> := [(0, 0), (1, 1), (2, 2), (3, 3), (4, 4), (5, 5), (7, 14), (8, 15), (9, 16), (10, 17)]

  /** The aliased pairs are sport/spt, dport/dpt, seqnum/sqn, acknum/akn,
      dataofs/dat, reserved/rsv, window/wnd, chksum/chk, urgptr/ptr and options/opt,
      and each pair sits at the same offset with the same width. */
  lemma AliasesShareLocation()
    ensures forall k :: 0 <= k < |ALIASES| ==> ALIASES[k].0 < |VIEW1| && ALIASES[k].1 < |VIEW2|
    ensures [VIEW1[0].name, VIEW1[1].name, VIEW1[2].name, VIEW1[3].name, VIEW1[4].name,
             VIEW1[5].name, VIEW1[7].name, VIEW1[8].name, VIEW1[9].name, VIEW1[10].name]
         == [Sport, Dport, Seqnum, Acknum, Dataofs, Reserved, Window, Chksum, Urgptr, Options]
    ensures [VIEW2[0].name, VIEW2[1].name, VIEW2[2].name, VIEW2[3].name, VIEW2[4].name,
             VIEW2[5].name, VIEW2[14].name, VIEW2[15].name, VIEW2[16].name, VIEW2[17].name]
         == [Spt, Dpt, Sqn, Akn, Dat, Rsv, Wnd, Chk, Ptr, Opt]
    ensures forall k :: 0 <= k < |ALIASES| ==>
              VIEW1[ALIASES[k].0].offset == VIEW2[ALIASES[k].1].offset
              && VIEW1[ALIASES[k].0].bits == VIEW2[ALIASES[k].1].bits
  {
  }

  /** So writing through one name and reading through its alias agree on any storage. */
  lemma AliasesReadAlike(b: seq<bv8>, k: nat)
    requires |b| == 60 && k < |ALIASES|
    ensures ALIASES[k].0 < |VIEW1| && ALIASES[k].1 < |VIEW2|
    ensures VIEW1[ALIASES[k].0].offset + VIEW1[ALIASES[k].0].bits <= 8 * |b|
    ensures Get(b, VIEW1[ALIASES[k].0]) == Get(b, VIEW2[ALIASES[k].1])
  {
    ViewsPacked();
    AliasesShareLocation();
  }

  /** Byte i of the storage occupies bits 8i .. 8i+8. */
  lemma {:induction false} BitsOfByte(b: seq<bv8>, i: nat)
    requires i < |b|
    ensures Bits(b)[8 * i..8 * i + 8] == ByteBits(b[i])
  {
    if i == 0 {
      assert Bits(b)[..8] == ByteBits(b[0]);
    } else {
      BitsOfByte(b[1..], i - 1);
      assert Bits(b)[8..] == Bits(b[1..]);
      assert Bits(b)[8 * i..8 * i + 8] == Bits(b)[8..][8 * (i - 1)..8 * (i - 1) + 8];
    }
  }

  /** Bit 7 - n of a flag byte, counted from the most significant, is the flag at index n. */
  lemma ByteBitsAreFlags(x: bv8)
    ensures forall f: Tcp.TcpFlag :: ByteBits(x)[7 - Tcp.FlagIndex(f)] == (x & Tcp.FlagMask(f) != 0)
  {
  }

  /** View 1's flags byte (member 6) and view 2's eight one-bit members (6..13)
      are the same storage, byte 13, cwr the most significant and fin the least;
      each named bit is the corresponding TCP_FLAG_x bit of the newer tcp_flag_view. */
  lemma FlagsByteIsExpandedBits(b: seq<bv8>)
    requires |b| == 60
    ensures VIEW1[6].name == Flags
    ensures [VIEW2[6].name, VIEW2[7].name, VIEW2[8].name, VIEW2[9].name,
             VIEW2[10].name, VIEW2[11].name, VIEW2[12].name, VIEW2[13].name]
         == [CwrBit, EceBit, UrgBit, AckBit, PshBit, RstBit, SynBit, FinBit]
    ensures Get(b, VIEW1[6]) == ByteBits(b[Tcp.FLAGS_OFS])
    ensures Get(b, VIEW1[6]) == Get(b, VIEW2[6]) + Get(b, VIEW2[7]) + Get(b, VIEW2[8])
                                + Get(b, VIEW2[9]) + Get(b, VIEW2[10]) + Get(b, VIEW2[11])
                                + Get(b, VIEW2[12]) + Get(b, VIEW2[13])
    ensures forall f: Tcp.TcpFlag :: ByteBits(b[Tcp.FLAGS_OFS])[7 - Tcp.FlagIndex(f)]
                                     == Tcp.FlagSet(b[..Tcp.TCP_HDR_LEN], f)
  {
    ByteBitsAreFlags(b[Tcp.FLAGS_OFS]);
    BitsOfByte(b, 13);
    var bits := Bits(b);
    assert bits[104..112] == [bits[104], bits[105], bits[106], bits[107], bits[108], bits[109], bits[110], bits[111]];
  }

  /** The data offset (dataofs, dat) is the high nibble of byte 12 and the reserved
      bits (reserved, rsv) the low one, as in the newer tcp_hdr. */
  lemma DataOffsetIsHighNibble(b: seq<bv8>)
    requires |b| == 60
    ensures VIEW1[4].name == Dataofs && VIEW2[5].name == Rsv
    ensures Get(b, VIEW1[4]) == NibbleBits(Tcp.DataOfs(b[..Tcp.TCP_HDR_LEN]))
    ensures Get(b, VIEW2[5]) == NibbleBits(Tcp.Reserved(b[..Tcp.TCP_HDR_LEN]))
  {
    BitsOfByte(b, 12);
    var bits := Bits(b);
    assert bits[96..100] == bits[96..104][..4];
    assert bits[100..104] == bits[96..104][4..];
  }

  /** The 16-bit members hold the network-order words of the newer header. */
  lemma PortsAreNetworkWords(b: seq<bv8>)
    requires |b| == 60
    ensures VIEW1[0].name == Sport && VIEW2[1].name == Dpt
    ensures Get(b, VIEW1[0]) == Bits(Wire.Be16(Tcp.Sport(b[..Tcp.TCP_HDR_LEN])))
    ensures Get(b, VIEW2[1]) == Bits(Wire.Be16(Tcp.Dport(b[..Tcp.TCP_HDR_LEN])))
  {
    SourcePortIsNetworkWord(b);
    DestPortIsNetworkWord(b);
  }

  lemma SourcePortIsNetworkWord(b: seq<bv8>)
    requires |b| == 60
    ensures VIEW1[0].name == Sport
    ensures Get(b, VIEW1[0]) == Bits(Wire.Be16(Tcp.Sport(b[..Tcp.TCP_HDR_LEN])))
  {
    var h := b[..Tcp.TCP_HDR_LEN];
    Wire.Be16OfSlice(h, 0);
    BitsOfByte(b, 0);
    BitsOfByte(b, 1);
    var bits := Bits(b);
    assert bits[0..16] == bits[0..8] + bits[8..16];
    assert Bits(h[0..2]) == ByteBits(h[0]) + ByteBits(h[1]);
  }

  lemma DestPortIsNetworkWord(b: seq<bv8>)
    requires |b| == 60
    ensures VIEW2[1].name == Dpt
    ensures Get(b, VIEW2[1]) == Bits(Wire.Be16(Tcp.Dport(b[..Tcp.TCP_HDR_LEN])))
  {
    var h := b[..Tcp.TCP_HDR_LEN];
    Wire.Be16OfSlice(h, 2);
    BitsOfByte(b, 2);
    BitsOfByte(b, 3);
    var bits := Bits(b);
    assert bits[16..32] == bits[16..24] + bits[24..32];
    assert Bits(h[2..4]) == ByteBits(h[2]) + ByteBits(h[3]);
  }

}
