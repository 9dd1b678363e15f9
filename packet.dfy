/** The packet builder of send_packets: a zeroed buffer of IP_PKT_MTU bytes
    holding an IPv4 header at byte 0 and a TCP header right after it, written
    once as a SYN template and then, per packet, given a fresh source address
    and source port. Values of rand() are parameters; sendto is replaced by
    recording the bytes that would be handed to it. */
module Packet {
  import opened Wire
  import Ipv4
  import Tcp
  import opened Outcomes

  /** Size of the packet buffer (the Ethernet II MTU). */
  const IP_PKT_MTU: nat := 1500

  /** Where the TCP header starts: right after an option-less IPv4 header. */
  const TCP_OFS: nat := Ipv4.IP_HDR_LEN

  /** Bytes used by the two headers; nothing follows them. */
  const HEADERS_LEN: nat := Ipv4.IP_HDR_LEN + Tcp.TCP_HDR_LEN

  /** The total-length field of the template: htons(sizeof ip_hdr + sizeof tcp_hdr). */
  const TOTAL_LEN: bv16 := 40

  const TWO_32: int := 0x1_0000_0000

  /** glibc's RAND_MAX; rand() returns a value in [0, RAND_MAX]. */
  const RAND_MAX: int := 0x7FFF_FFFF

  type Rand = r: int | 0 <= r <= RAND_MAX

  /** The value range of uint32_t, used for address arithmetic. */
  type U32 = x: int | 0 <= x < TWO_32

  /** struct pkt_args: what a sending thread is told. The source range bounds
      are the host-order values of ip_addr_t, the destination its stored bits. */
  datatype PktArgs = PktArgs(
    sock: int, numThreads: int,
    srcIpStart: U32, srcIpEnd: U32,
    srcPort: int, destIp: bv32, destPort: int)

  // ===== the source-address draw =====

  /** The 32 bits stored for an address value; htonl is the identity on the
      big-endian host this model assumes. */
  function AddressBits(a: U32): bv32
  {
    a as bv32
  }

  /** Number of addresses in [start, end], counted modulo 2^32 as the unsigned
      expression end - start + 1 does, except that the full range has 2^32
      addresses instead of wrapping to 0. */
  function Span(start: U32, end: U32): (n: int)
    ensures 1 <= n <= TWO_32
    ensures start <= end ==> n == end - start + 1
  {
    (end - start) % TWO_32 + 1
  }

  /** start + r % span, computed in 32-bit unsigned arithmetic. */
  function SpoofAddress(start: U32, end: U32, r: Rand): U32
  {
    (start + r % Span(start, end)) % TWO_32
  }

  /** For a proper range the drawn address lies inside it. */
  lemma SpoofAddressInRange(start: U32, end: U32, r: Rand)
    requires start <= end
    ensures start <= SpoofAddress(start, end, r) <= end
  {
  }

  /** A one-address range always yields that address. */
  lemma SpoofAddressSingle(a: U32, r: Rand)
    ensures SpoofAddress(a, a, r) == a
  {
    assert Span(a, a) == 1;
  }

  /** Every address of a proper range is drawn by some value of rand(). */
  lemma SpoofAddressCovers(start: U32, end: U32, a: U32)
    requires start <= a <= end && a - start <= RAND_MAX
    ensures SpoofAddress(start, end, a - start) == a
  {
  }

  /** The divisor exactly as written: end - start + 1 in unsigned 32-bit
      arithmetic, which wraps to 0 for the full range. */
  function SpanAsWritten(start: U32, end: U32): (n: int)
    ensures 0 <= n < TWO_32
  {
    (end - start + 1) % TWO_32
  }

  /** The draw as written: undefined (None) when the divisor is 0. */
  function SpoofAddressAsWritten(start: U32, end: U32, r: Rand): Option<U32>
  {
    var n := SpanAsWritten(start, end);
    if n == 0 then None else Some((start + r % n) % TWO_32)
  }

  /** The written draw and SpoofAddress agree whenever the divisor is not 0 ... */
  lemma SpoofAddressAsWrittenAgrees(start: U32, end: U32, r: Rand)
    requires SpanAsWritten(start, end) != 0
    ensures SpoofAddressAsWritten(start, end, r) == Some(SpoofAddress(start, end, r))
  {
    if start <= end {
      assert end - start + 1 < TWO_32;
    } else {
      assert (end - start + 1) % TWO_32 == end - start + 1 + TWO_32;
      assert (end - start) % TWO_32 == end - start + TWO_32;
    }
  }

  /** ... and the divisor is 0 exactly when end + 1 wraps round to start:
      among ordered ranges that is only the full range 0.0.0.0 - 255.255.255.255,
      and among reversed ones every range whose end is start - 1 modulo 2^32.
      In both cases the written draw divides by zero. */
  lemma SpanAsWrittenZeroIffFullRange(start: U32, end: U32)
    ensures SpanAsWritten(start, end) == 0 <==> (end + 1) % TWO_32 == start
    ensures start <= end ==> (SpanAsWritten(start, end) == 0 <==> start == 0 && end == 0xFFFF_FFFF)
    ensures SpanAsWritten(0, 0xFFFF_FFFF) == 0
    ensures SpoofAddressAsWritten(0, 0xFFFF_FFFF, 0) == None
    ensures Span(0, 0xFFFF_FFFF) == TWO_32
  {
    if start <= end {
      assert 0 < end - start + 1 <= TWO_32;
    } else {
      assert 0 < end - start + 1 + TWO_32 <= TWO_32;
    }
  }

  /** htons(rand() % 65536). */
  function SourcePort(r: Rand): bv16
  {
    (r % 65536) as bv16
  }

  /** htons(dest_port): the int is converted to uint16_t, i.e. taken modulo 2^16. */
  function DestPort(port: int): bv16
  {
    (port % 65536) as bv16
  }

  // ===== the template =====

  /** The buffer as the two encoded headers followed by zero bytes. */
  function Image(ip: Ipv4.Fields, tcp: Tcp.Fields): (b: seq<bv8>)
    ensures |b| == IP_PKT_MTU
  {
    Ipv4.Encode(ip) + Tcp.Encode(tcp) + Zeros(IP_PKT_MTU - HEADERS_LEN)
  }

  function Zeros(n: nat): (z: seq<bv8>)
    ensures |z| == n && forall k :: 0 <= k < n ==> z[k] == 0
  {
    seq(n, _ => 0)
  }

  /** The IPv4 header of a packet buffer. */
  function IpHeader(b: seq<bv8>): Ipv4.Header
    requires |b| >= HEADERS_LEN
  {
    b[..Ipv4.IP_HDR_LEN]
  }

  /** The TCP header of a packet buffer. */
  function TcpHeader(b: seq<bv8>): Tcp.Header
    requires |b| >= HEADERS_LEN
  {
    b[TCP_OFS..HEADERS_LEN]
  }

  /** The two header views of an image read back the records it was built from,
      and nothing follows the headers but zeros. */
  lemma ImageViews(ip: Ipv4.Fields, tcp: Tcp.Fields)
    ensures Ipv4.Decode(IpHeader(Image(ip, tcp))) == ip
    ensures Tcp.Decode(TcpHeader(Image(ip, tcp))) == tcp
    ensures Image(ip, tcp)[HEADERS_LEN..] == Zeros(IP_PKT_MTU - HEADERS_LEN)
  {
    var b := Image(ip, tcp);
    assert IpHeader(b) == Ipv4.Encode(ip);
    assert TcpHeader(b) == Tcp.Encode(tcp);
    Ipv4.DecodeEncode(ip);
    Tcp.DecodeEncode(tcp);
  }

  /** All-zero header records. */
  const ZERO_IP: Ipv4.Fields := Ipv4.Fields(0, 0, 0, 0, 0, 0, 0, 0, 0, 0, 0, 0)
  const ZERO_TCP: Tcp.Fields := Tcp.Fields(0, 0, 0, 0, 0, 0, 0, 0, 0, 0)

  /** A zeroed buffer is the image of the all-zero records. */
  lemma ZeroImage()
    ensures Image(ZERO_IP, ZERO_TCP) == Zeros(IP_PKT_MTU)
  {
    var z := Zeros(IP_PKT_MTU);
    assert Ipv4.Decode(IpHeader(z)) == ZERO_IP;
    assert Tcp.Decode(TcpHeader(z)) == ZERO_TCP;
    Ipv4.EncodeDecode(IpHeader(z));
    Tcp.EncodeDecode(TcpHeader(z));
    assert z == IpHeader(z) + TcpHeader(z) + z[HEADERS_LEN..];
  }

  /** The IPv4 header the builder writes: version 4, IHL 5, TTL 128, protocol
      TCP, total length 40, the drawn source, the given destination; every
      field it does not write stays 0. */
  function IpTemplate(args: PktArgs, rAddr: Rand): Ipv4.Fields
  {
    ZERO_IP.(version := 4).(ihl := 5).(ttl := 128)
           .(saddr := AddressBits(SpoofAddress(args.srcIpStart, args.srcIpEnd, rAddr)))
           .(daddr := args.destIp).(proto := Ipv4.ProtocolCode(Ipv4.ProtoTcp))
           .(len := TOTAL_LEN)
  }

  /** The TCP header the builder writes: drawn source port, given destination
      port, a random sequence number and the SYN flag; everything else 0,
      including the data offset, which is never written. */
  function TcpTemplate(args: PktArgs, rPort: Rand, rSeq: Rand): Tcp.Fields
  {
    ZERO_TCP.(sport := SourcePort(rPort)).(dport := DestPort(args.destPort))
            .(seqnum := rSeq as bv32).(flags := Tcp.FlagMask(Tcp.Syn))
  }

  /** The whole buffer after the template has been written. */
  function Template(args: PktArgs, rAddr: Rand, rPort: Rand, rSeq: Rand): (b: seq<bv8>)
    ensures |b| == IP_PKT_MTU
  {
    Image(IpTemplate(args, rAddr), TcpTemplate(args, rPort, rSeq))
  }

  /** Read back through the header views, the template holds version 4, IHL 5,
      TTL 128, protocol 6, length 40, zero ToS/id/flags/offset/checksum, the drawn
      source and given destination; SYN is the only TCP flag; the bytes after
      the headers are zero. */
  lemma TemplateViews(args: PktArgs, rAddr: Rand, rPort: Rand, rSeq: Rand)
    ensures Ipv4.Version(IpHeader(Template(args, rAddr, rPort, rSeq))) == 4
    ensures Ipv4.Ihl(IpHeader(Template(args, rAddr, rPort, rSeq))) == 5
    ensures Ipv4.Ttl(IpHeader(Template(args, rAddr, rPort, rSeq))) == 128
    ensures Ipv4.Proto(IpHeader(Template(args, rAddr, rPort, rSeq))) == 6
    ensures Ipv4.Len(IpHeader(Template(args, rAddr, rPort, rSeq))) == 40
    ensures Ipv4.Tos(IpHeader(Template(args, rAddr, rPort, rSeq))) == 0
    ensures Ipv4.Id(IpHeader(Template(args, rAddr, rPort, rSeq))) == 0
    ensures Ipv4.FlagBits(IpHeader(Template(args, rAddr, rPort, rSeq))) == 0
    ensures Ipv4.FragOfs(IpHeader(Template(args, rAddr, rPort, rSeq))) == 0
    ensures Ipv4.Chksum(IpHeader(Template(args, rAddr, rPort, rSeq))) == 0
    ensures Ipv4.Saddr(IpHeader(Template(args, rAddr, rPort, rSeq)))
            == AddressBits(SpoofAddress(args.srcIpStart, args.srcIpEnd, rAddr))
    ensures Ipv4.Daddr(IpHeader(Template(args, rAddr, rPort, rSeq))) == args.destIp
    ensures Tcp.Decode(TcpHeader(Template(args, rAddr, rPort, rSeq))) == TcpTemplate(args, rPort, rSeq)
    ensures forall f :: Tcp.FlagSet(TcpHeader(Template(args, rAddr, rPort, rSeq)), f) <==> f == Tcp.Syn
    ensures Template(args, rAddr, rPort, rSeq)[HEADERS_LEN..] == Zeros(IP_PKT_MTU - HEADERS_LEN)
  {
    var tcp := TcpHeader(Template(args, rAddr, rPort, rSeq));
    ImageViews(IpTemplate(args, rAddr), TcpTemplate(args, rPort, rSeq));
    forall f ensures Tcp.FlagSet(tcp, f) <==> f == Tcp.Syn {
      Tcp.FlagMasksDistinctBits(f, Tcp.Syn);
    }
  }

  /** For a proper source range, every template's source address is the
      stored form of an address in that range. */
  lemma TemplateSourceInRange(args: PktArgs, rAddr: Rand, rPort: Rand, rSeq: Rand)
    requires args.srcIpStart <= args.srcIpEnd
    ensures exists a: U32 :: args.srcIpStart <= a <= args.srcIpEnd
              && Ipv4.Saddr(IpHeader(Template(args, rAddr, rPort, rSeq))) == AddressBits(a)
  {
    TemplateViews(args, rAddr, rPort, rSeq);
    SpoofAddressInRange(args.srcIpStart, args.srcIpEnd, rAddr);
  }

  // ===== one iteration of the send loop =====

  /** The buffer after one iteration rewrote the source address and port. */
  function Refresh(b: seq<bv8>, args: PktArgs, rAddr: Rand, rPort: Rand): (r: seq<bv8>)
    requires |b| == IP_PKT_MTU
    ensures |r| == IP_PKT_MTU
  {
    WithU16(WithU32(b, Ipv4.SADDR_OFS, AddressBits(SpoofAddress(args.srcIpStart, args.srcIpEnd, rAddr))),
            TCP_OFS + Tcp.SPORT_OFS, SourcePort(rPort))
  }

  /** An iteration touches only bytes 12-15 (saddr) and 20-21 (sport). */
  lemma RefreshFrame(b: seq<bv8>, args: PktArgs, rAddr: Rand, rPort: Rand)
    requires |b| == IP_PKT_MTU
    ensures forall k :: 0 <= k < IP_PKT_MTU && !(12 <= k < 16) && !(20 <= k < 22) ==>
              Refresh(b, args, rAddr, rPort)[k] == b[k]
  {
  }

  /** Refreshing a template gives the template of the new draws; the sequence
      number written before the loop is kept. */
  lemma RefreshKeepsTemplate(args: PktArgs, rAddr: Rand, rPort: Rand, rSeq: Rand, sAddr: Rand, sPort: Rand)
    ensures Refresh(Template(args, rAddr, rPort, rSeq), args, sAddr, sPort) == Template(args, sAddr, sPort, rSeq)
  {
    var ip := IpTemplate(args, rAddr);
    var tcp := TcpTemplate(args, rPort, rSeq);
    var a := AddressBits(SpoofAddress(args.srcIpStart, args.srcIpEnd, sAddr));
    var p := SourcePort(sPort);
    var b1 := WithU32(Image(ip, tcp), Ipv4.SADDR_OFS, a);
    assert b1 == Image(ip.(saddr := a), tcp) by {
      WithU32InFirst(Ipv4.Encode(ip), Tcp.Encode(tcp), Zeros(IP_PKT_MTU - HEADERS_LEN), Ipv4.SADDR_OFS, a);
      Ipv4.EncodeWithSaddr(ip, a);
    }
    var b2 := WithU16(b1, TCP_OFS + Tcp.SPORT_OFS, p);
    assert b2 == Image(ip.(saddr := a), tcp.(sport := p)) by {
      WithU16InSecond(Ipv4.Encode(ip.(saddr := a)), Tcp.Encode(tcp), Zeros(IP_PKT_MTU - HEADERS_LEN),
                      Tcp.SPORT_OFS, p);
      Tcp.EncodeWithSport(tcp, p);
    }
    assert ip.(saddr := a) == IpTemplate(args, sAddr);
    assert tcp.(sport := p) == TcpTemplate(args, sPort, rSeq);
  }

  // ===== the imperative builder =====

  method PutU8(a: array<bv8>, i: nat, v: bv8)
    requires i < a.Length
    modifies a
    ensures a[..] == old(a[..])[i := v]
  {
    a[i] := v;
  }

  /** Store a 16-bit word in network order at a[i], a[i+1]. */
  method PutU16(a: array<bv8>, i: nat, v: bv16)
    requires i + 2 <= a.Length
    modifies a
    ensures a[..] == WithU16(old(a[..]), i, v)
  {
    a[i] := (v >> 8) as bv8;
    a[i + 1] := (v & 0xFF) as bv8;
  }

  /** Store a 32-bit word in network order at a[i..i+4]. */
  method PutU32(a: array<bv8>, i: nat, v: bv32)
    requires i + 4 <= a.Length
    modifies a
    ensures a[..] == WithU32(old(a[..]), i, v)
  {
    a[i] := (v >> 24) as bv8;
    a[i + 1] := ((v >> 16) & 0xFF) as bv8;
    a[i + 2] := ((v >> 8) & 0xFF) as bv8;
    a[i + 3] := (v & 0xFF) as bv8;
  }

  // Writes through the ip_header and tcp_header pointers. The ghost records
  // say what the two header views read before and after the write.

  method StoreIpByte(buf: array<bv8>, ghost ip: Ipv4.Fields, ghost tcp: Tcp.Fields,
                     i: nat, v: bv8, ghost ip2: Ipv4.Fields)
    requires buf[..] == Image(ip, tcp)
    requires i < Ipv4.IP_HDR_LEN && Ipv4.Encode(ip)[i := v] == Ipv4.Encode(ip2)
    modifies buf
    ensures buf[..] == Image(ip2, tcp)
  {
    ByteInFirst(Ipv4.Encode(ip), Tcp.Encode(tcp), Zeros(IP_PKT_MTU - HEADERS_LEN), i, v);
    PutU8(buf, i, v);
  }

  method StoreIpU16(buf: array<bv8>, ghost ip: Ipv4.Fields, ghost tcp: Tcp.Fields,
                    i: nat, v: bv16, ghost ip2: Ipv4.Fields)
    requires buf[..] == Image(ip, tcp)
    requires i + 2 <= Ipv4.IP_HDR_LEN && WithU16(Ipv4.Encode(ip), i, v) == Ipv4.Encode(ip2)
    modifies buf
    ensures buf[..] == Image(ip2, tcp)
  {
    WithU16InFirst(Ipv4.Encode(ip), Tcp.Encode(tcp), Zeros(IP_PKT_MTU - HEADERS_LEN), i, v);
    PutU16(buf, i, v);
  }

  method StoreIpU32(buf: array<bv8>, ghost ip: Ipv4.Fields, ghost tcp: Tcp.Fields,
                    i: nat, v: bv32, ghost ip2: Ipv4.Fields)
    requires buf[..] == Image(ip, tcp)
    requires i + 4 <= Ipv4.IP_HDR_LEN && WithU32(Ipv4.Encode(ip), i, v) == Ipv4.Encode(ip2)
    modifies buf
    ensures buf[..] == Image(ip2, tcp)
  {
    WithU32InFirst(Ipv4.Encode(ip), Tcp.Encode(tcp), Zeros(IP_PKT_MTU - HEADERS_LEN), i, v);
    PutU32(buf, i, v);
  }

  method StoreTcpByte(buf: array<bv8>, ghost ip: Ipv4.Fields, ghost tcp: Tcp.Fields,
                      i: nat, v: bv8, ghost tcp2: Tcp.Fields)
    requires buf[..] == Image(ip, tcp)
    requires i < Tcp.TCP_HDR_LEN && Tcp.Encode(tcp)[i := v] == Tcp.Encode(tcp2)
    modifies buf
    ensures buf[..] == Image(ip, tcp2)
  {
    ByteInSecond(Ipv4.Encode(ip), Tcp.Encode(tcp), Zeros(IP_PKT_MTU - HEADERS_LEN), i, v);
    PutU8(buf, TCP_OFS + i, v);
  }

  method StoreTcpU16(buf: array<bv8>, ghost ip: Ipv4.Fields, ghost tcp: Tcp.Fields,
                     i: nat, v: bv16, ghost tcp2: Tcp.Fields)
    requires buf[..] == Image(ip, tcp)
    requires i + 2 <= Tcp.TCP_HDR_LEN && WithU16(Tcp.Encode(tcp), i, v) == Tcp.Encode(tcp2)
    modifies buf
    ensures buf[..] == Image(ip, tcp2)
  {
    WithU16InSecond(Ipv4.Encode(ip), Tcp.Encode(tcp), Zeros(IP_PKT_MTU - HEADERS_LEN), i, v);
    PutU16(buf, TCP_OFS + i, v);
  }

  method StoreTcpU32(buf: array<bv8>, ghost ip: Ipv4.Fields, ghost tcp: Tcp.Fields,
                     i: nat, v: bv32, ghost tcp2: Tcp.Fields)
    requires buf[..] == Image(ip, tcp)
    requires i + 4 <= Tcp.TCP_HDR_LEN && WithU32(Tcp.Encode(tcp), i, v) == Tcp.Encode(tcp2)
    modifies buf
    ensures buf[..] == Image(ip, tcp2)
  {
    WithU32InSecond(Ipv4.Encode(ip), Tcp.Encode(tcp), Zeros(IP_PKT_MTU - HEADERS_LEN), i, v);
    PutU32(buf, TCP_OFS + i, v);
  }

  /** The part of send_packets before the loop: a zeroed buffer, then the
      template fields one by one in the order of the source, then ntohs(len)
      as the packet length. */
  method CraftPacket(args: PktArgs, rAddr: Rand, rPort: Rand, rSeq: Rand)
    returns (buf: array<bv8>, length: nat)
    ensures fresh(buf)
    ensures buf[..] == Template(args, rAddr, rPort, rSeq)
    ensures length == HEADERS_LEN
  {
    buf := new bv8[IP_PKT_MTU](_ => 0);
    ZeroImage();
    WriteIpTemplate(buf, args, rAddr, ZERO_TCP);
    WriteTcpTemplate(buf, args, rPort, rSeq, IpTemplate(args, rAddr));
    ImageViews(IpTemplate(args, rAddr), TcpTemplate(args, rPort, rSeq));
    length := Ipv4.Len(IpHeader(buf[..])) as nat;
  }

  /** The ip_header assignments of send_packets, on a zeroed IPv4 header. The
      ghost record follows what the header view reads at each step. */
  method WriteIpTemplate(buf: array<bv8>, args: PktArgs, rAddr: Rand, ghost tcp: Tcp.Fields)
    requires buf[..] == Image(ZERO_IP, tcp)
    modifies buf
    ensures buf[..] == Image(IpTemplate(args, rAddr), tcp)
  {
    ghost var ip := ZERO_IP;
    // ip_header->ver = 4; ip_header->ihl = 5;
    assert buf[Ipv4.VER_IHL_OFS] == Ipv4.Encode(ip)[Ipv4.VER_IHL_OFS];
    Ipv4.EncodeWithVersion(ip, 4);
    StoreIpByte(buf, ip, tcp, Ipv4.VER_IHL_OFS, WithHiNibble(buf[Ipv4.VER_IHL_OFS], 4), ip.(version := 4));
    ip := ip.(version := 4);
    assert buf[Ipv4.VER_IHL_OFS] == Ipv4.Encode(ip)[Ipv4.VER_IHL_OFS];
    Ipv4.EncodeWithIhl(ip, 5);
    StoreIpByte(buf, ip, tcp, Ipv4.VER_IHL_OFS, WithLoNibble(buf[Ipv4.VER_IHL_OFS], 5), ip.(ihl := 5));
    ip := ip.(ihl := 5);
    // ip_header->ttl = 128;
    Ipv4.EncodeWithTtl(ip, 128);
    StoreIpByte(buf, ip, tcp, Ipv4.TTL_OFS, 128, ip.(ttl := 128));
    ip := ip.(ttl := 128);
    // ip_header->saddr.address = htonl(start + rand() % (end - start + 1));
    var src := AddressBits(SpoofAddress(args.srcIpStart, args.srcIpEnd, rAddr));
    Ipv4.EncodeWithSaddr(ip, src);
    StoreIpU32(buf, ip, tcp, Ipv4.SADDR_OFS, src, ip.(saddr := src));
    ip := ip.(saddr := src);
    // ip_header->daddr.address = dest_ip.address;
    Ipv4.EncodeWithDaddr(ip, args.destIp);
    StoreIpU32(buf, ip, tcp, Ipv4.DADDR_OFS, args.destIp, ip.(daddr := args.destIp));
    ip := ip.(daddr := args.destIp);
    // ip_header->proto = IP_PROTO_TCP;
    var proto := Ipv4.ProtocolCode(Ipv4.ProtoTcp);
    Ipv4.EncodeWithProto(ip, proto);
    StoreIpByte(buf, ip, tcp, Ipv4.PROTO_OFS, proto, ip.(proto := proto));
    ip := ip.(proto := proto);
    // ip_header->len = htons(sizeof ip_hdr + sizeof tcp_hdr);
    Ipv4.EncodeWithLen(ip, TOTAL_LEN);
    StoreIpU16(buf, ip, tcp, Ipv4.LEN_OFS, TOTAL_LEN, ip.(len := TOTAL_LEN));
    ip := ip.(len := TOTAL_LEN);
    TemplateSteps(args, rAddr, 0, 0);
  }

  /** The tcp_header assignments of send_packets, on a zeroed TCP header. */
  method WriteTcpTemplate(buf: array<bv8>, args: PktArgs, rPort: Rand, rSeq: Rand, ghost ip: Ipv4.Fields)
    requires buf[..] == Image(ip, ZERO_TCP)
    modifies buf
    ensures buf[..] == Image(ip, TcpTemplate(args, rPort, rSeq))
  {
    ghost var tcp := ZERO_TCP;
    // tcp_header->sport = htons(rand() % 65536);
    Tcp.EncodeWithSport(tcp, SourcePort(rPort));
    StoreTcpU16(buf, ip, tcp, Tcp.SPORT_OFS, SourcePort(rPort), tcp.(sport := SourcePort(rPort)));
    tcp := tcp.(sport := SourcePort(rPort));
    // tcp_header->dport = htons(dest_port);
    Tcp.EncodeWithDport(tcp, DestPort(args.destPort));
    StoreTcpU16(buf, ip, tcp, Tcp.DPORT_OFS, DestPort(args.destPort), tcp.(dport := DestPort(args.destPort)));
    tcp := tcp.(dport := DestPort(args.destPort));
    // tcp_header->seqnum = rand();
    Tcp.EncodeWithSeqnum(tcp, rSeq as bv32);
    StoreTcpU32(buf, ip, tcp, Tcp.SEQNUM_OFS, rSeq as bv32, tcp.(seqnum := rSeq as bv32));
    tcp := tcp.(seqnum := rSeq as bv32);
    // tcp_header->flags.syn = true;
    Tcp.EncodeLayout(tcp);
    assert buf[TCP_OFS + Tcp.FLAGS_OFS] == tcp.flags;
    var flags := WithBit(buf[TCP_OFS + Tcp.FLAGS_OFS], Tcp.FlagMask(Tcp.Syn), true);
    Tcp.EncodeWithFlag(tcp, Tcp.Syn, true);
    StoreTcpByte(buf, ip, tcp, Tcp.FLAGS_OFS, flags, tcp.(flags := flags));
    tcp := tcp.(flags := flags);
    TemplateSteps(args, 0, rPort, rSeq);
  }

  /** The records CraftPacket builds field by field are the templates. */
  lemma TemplateSteps(args: PktArgs, rAddr: Rand, rPort: Rand, rSeq: Rand)
    ensures ZERO_IP.(version := 4).(ihl := 5).(ttl := 128)
              .(saddr := AddressBits(SpoofAddress(args.srcIpStart, args.srcIpEnd, rAddr)))
              .(daddr := args.destIp).(proto := Ipv4.ProtocolCode(Ipv4.ProtoTcp))
              .(len := TOTAL_LEN) == IpTemplate(args, rAddr)
    ensures ZERO_TCP.(sport := SourcePort(rPort)).(dport := DestPort(args.destPort))
              .(seqnum := rSeq as bv32).(flags := WithBit(0, Tcp.FlagMask(Tcp.Syn), true))
            == TcpTemplate(args, rPort, rSeq)
  {
  }

  /** One iteration of the for (;;) loop, without the sendto call. */
  method RefreshPacket(buf: array<bv8>, args: PktArgs, rAddr: Rand, rPort: Rand)
    requires buf.Length == IP_PKT_MTU
    modifies buf
    ensures buf[..] == Refresh(old(buf[..]), args, rAddr, rPort)
  {
    PutU32(buf, Ipv4.SADDR_OFS, AddressBits(SpoofAddress(args.srcIpStart, args.srcIpEnd, rAddr)));
    PutU16(buf, TCP_OFS + Tcp.SPORT_OFS, SourcePort(rPort));
  }

  /** The packets a run transmits for the given draws, in order: for each pair
      of rand() values, the first HEADERS_LEN bytes of that draw's template. */
  function Transmitted(args: PktArgs, rSeq: Rand, draws: seq<(Rand, Rand)>): (s: seq<seq<bv8>>)
    ensures |s| == |draws|
    decreases |draws|
  {
    if draws == [] then []
    else
      var last := draws[|draws| - 1];
      Transmitted(args, rSeq, draws[..|draws| - 1]) + [Template(args, last.0, last.1, rSeq)[..HEADERS_LEN]]
  }

  /** The i-th transmitted packet is the template of the i-th draw, cut to
      the two headers. */
  lemma {:induction false} TransmittedAt(args: PktArgs, rSeq: Rand, draws: seq<(Rand, Rand)>, i: nat)
    requires i < |draws|
    ensures Transmitted(args, rSeq, draws)[i] == Template(args, draws[i].0, draws[i].1, rSeq)[..HEADERS_LEN]
    decreases |draws|
  {
    if i < |draws| - 1 {
      var front := draws[..|draws| - 1];
      TransmittedAt(args, rSeq, front, i);
      assert front[i] == draws[i];
    }
  }

  /** Every packet of a run, by position. */
  lemma TransmittedPackets(args: PktArgs, rSeq: Rand, draws: seq<(Rand, Rand)>)
    ensures forall i :: 0 <= i < |draws| ==>
              Transmitted(args, rSeq, draws)[i] == Template(args, draws[i].0, draws[i].1, rSeq)[..HEADERS_LEN]
  {
    forall i | 0 <= i < |draws|
      ensures Transmitted(args, rSeq, draws)[i] == Template(args, draws[i].0, draws[i].1, rSeq)[..HEADERS_LEN]
    {
      TransmittedAt(args, rSeq, draws, i);
    }
  }

  /** send_packets run for |draws| iterations: each iteration's pair of rand()
      values gives the source address and port, and the first `length` bytes of
      the buffer are what each sendto would transmit. */
  method SendPackets(args: PktArgs, rAddr: Rand, rPort: Rand, rSeq: Rand, draws: seq<(Rand, Rand)>)
    returns (sent: seq<seq<bv8>>)
    ensures sent == Transmitted(args, rSeq, draws)
    ensures |sent| == |draws|
    ensures forall i :: 0 <= i < |draws| ==>
              sent[i] == Template(args, draws[i].0, draws[i].1, rSeq)[..HEADERS_LEN]
  {
    var buf, length := CraftPacket(args, rAddr, rPort, rSeq);
    sent := [];
    ghost var lastAddr, lastPort := rAddr, rPort;
    var i := 0;
    while i < |draws|
      invariant 0 <= i <= |draws|
      invariant buf.Length == IP_PKT_MTU
      invariant buf[..] == Template(args, lastAddr, lastPort, rSeq)
      invariant sent == Transmitted(args, rSeq, draws[..i])
    {
      var packet := NextPacket(buf, length, args, lastAddr, lastPort, rSeq, draws[i].0, draws[i].1);
      lastAddr, lastPort := draws[i].0, draws[i].1;
      TransmittedStep(args, rSeq, draws, i);
      sent := sent + [packet];
      i := i + 1;
    }
    assert draws[..i] == draws;
    TransmittedPackets(args, rSeq, draws);
  }

  /** One iteration of the flood loop: the buffer moves from the previous
      draw's template to this draw's, and the first `length` bytes are what
      sendto transmits. */
  method NextPacket(buf: array<bv8>, length: nat, args: PktArgs, ghost lastAddr: Rand, ghost lastPort: Rand,
                    rSeq: Rand, rAddr: Rand, rPort: Rand)
    returns (packet: seq<bv8>)
    requires buf.Length == IP_PKT_MTU && length == HEADERS_LEN
    requires buf[..] == Template(args, lastAddr, lastPort, rSeq)
    modifies buf
    ensures buf[..] == Template(args, rAddr, rPort, rSeq)
    ensures packet == Template(args, rAddr, rPort, rSeq)[..HEADERS_LEN]
  {
    RefreshKeepsTemplate(args, lastAddr, lastPort, rSeq, rAddr, rPort);
    RefreshPacket(buf, args, rAddr, rPort);
    packet := buf[..length];
  }

  /** Transmitting one more draw appends that draw's packet. */
  lemma TransmittedStep(args: PktArgs, rSeq: Rand, draws: seq<(Rand, Rand)>, i: nat)
    requires i < |draws|
    ensures Transmitted(args, rSeq, draws[..i + 1])
            == Transmitted(args, rSeq, draws[..i]) + [Template(args, draws[i].0, draws[i].1, rSeq)[..HEADERS_LEN]]
  {
    assert draws[..i + 1][..i] == draws[..i];
  }

  /** Every transmitted packet of a proper source range carries a source address
      in that range and the sequence number drawn before the loop. */
  lemma SentPacketsInRange(args: PktArgs, rSeq: Rand, draws: seq<(Rand, Rand)>, sent: seq<seq<bv8>>)
    requires args.srcIpStart <= args.srcIpEnd
    requires |sent| == |draws|
    requires forall i :: 0 <= i < |draws| ==>
               sent[i] == Template(args, draws[i].0, draws[i].1, rSeq)[..HEADERS_LEN]
    ensures forall i :: 0 <= i < |sent| ==>
              |sent[i]| == HEADERS_LEN
              && (exists a: U32 :: args.srcIpStart <= a <= args.srcIpEnd
                    && U32At(sent[i], Ipv4.SADDR_OFS) == AddressBits(a))
              && U32At(sent[i], TCP_OFS + Tcp.SEQNUM_OFS) == rSeq as bv32
  {
    forall i | 0 <= i < |sent| {
      SentPacketInRange(args, rSeq, draws[i].0, draws[i].1, sent[i]);
    }
  }

  /** One transmitted packet: its source address lies in the range and its
      sequence number is the one drawn before the loop. */
  lemma SentPacketInRange(args: PktArgs, rSeq: Rand, rAddr: Rand, rPort: Rand, p: seq<bv8>)
    requires args.srcIpStart <= args.srcIpEnd
    requires p == Template(args, rAddr, rPort, rSeq)[..HEADERS_LEN]
    ensures |p| == HEADERS_LEN
    ensures exists a: U32 :: args.srcIpStart <= a <= args.srcIpEnd
              && U32At(p, Ipv4.SADDR_OFS) == AddressBits(a)
    ensures U32At(p, TCP_OFS + Tcp.SEQNUM_OFS) == rSeq as bv32
  {
    var ip, tcp := IpTemplate(args, rAddr), TcpTemplate(args, rPort, rSeq);
    var e, f := Ipv4.Encode(ip), Tcp.Encode(tcp);
    assert p == e + f by {
      assert Image(ip, tcp) == (e + f) + Zeros(IP_PKT_MTU - HEADERS_LEN);
    }
    var a := SpoofAddress(args.srcIpStart, args.srcIpEnd, rAddr);
    SpoofAddressInRange(args.srcIpStart, args.srcIpEnd, rAddr);
    U32InConcat(e, f, Ipv4.SADDR_OFS);
    assert U32At(e, Ipv4.SADDR_OFS) == ip.saddr by {
      Ipv4.DecodeEncode(ip);
    }
    U32InConcat(e, f, TCP_OFS + Tcp.SEQNUM_OFS);
    assert U32At(f, Tcp.SEQNUM_OFS) == tcp.seqnum by {
      Tcp.DecodeEncode(tcp);
    }
  }
}
