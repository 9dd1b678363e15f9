# Blitzping core in Dafny

Blitzping floods a target with forged TCP SYN packets over a raw IPv4
socket. This project models the part of it that decides what goes on the
wire, and the command line and start-up that come before the flood:

- the IPv4 and TCP header codec of `src/netlib/protos/ip.h` and
  `src/netlib/protos/tcp.h` (modules `Wire`, `Casts`, `Ipv4`, `Tcp`), and
  the two-view TCP header of the older `src/netinet.h` (module `LegacyTcp`);
- the packet buffer that `send_packets` in `src/packet.c` crafts once and
  then refreshes with a fresh source address and port per packet (module
  `Packet`);
- `fill_defaults` and how `main` in `src/main.c` ends (module `Startup`):
  with a status, or in the flood of `send_packets`, which never returns.
  It works over the `struct ProgramArgs` record (module `Program`). The
  parsed record does not reach the packets: `main` passes `&program_args`
  and `send_packets` reads it as a `struct pkt_args`;
- the command-line parser `src/cmdline/parser.c`: its value readers
  (`CmdlineValues`) and its option table, `handle_option` and `parse_args`
  (`Cmdline`);
- the older parser `src/parser.c`: `parse_ip_cidr` and `parse_ip_port`
  (`LegacyAddresses`) and its `validate_range`, `handle_option` and
  `parse_args` (`LegacyParser`).

The C library calls the parsers rely on (`tolower`, base-10 `strtol` on an
LP64 host, `atoi`, `strtok`, `inet_pton`, `inet_addr`) are given small
specifications in `CLib`. A C string is the `seq<char>` before its NUL.

The header structs are modelled as 20-byte `seq<bv8>` values read and
written through mask-and-shift views. Each setter says what its getter reads
back and that no other byte changes. `Encode`/`Decode` between a field
record and the bytes are proved mutual inverses. The host is taken to be
big-endian, so `htons`/`htonl` leave values unchanged and bitfields are laid
out from the most significant bit. This is the layout the headers' own
`__BIG_ENDIAN__` branches describe, and it is the wire order.

Code that updates state in place keeps that form:
- `struct ProgramArgs` and the range and endpoint out-parameters are classes
  whose methods assign their fields;
- `to_lowercase` is a loop over an array;
- the packet buffer is an `array<bv8>`;
- both `parse_args` functions are `while` loops over `argv`.

Each method is proved against a function (`Handle`, `ParseFrom`, `Template`,
`Refresh`, `IpPort`, …), and the properties are proved about those
functions.

## Model

| member | source | states |
|---|---|---|
| Ipv4.Octets | src/netlib/protos/ip.h:12-15 | the four octets of an address are its big-endian bytes: reading them back as a word gives the address |
| Ipv4.OctetsAddressRoundTrip | src/netlib/protos/ip.h:12-15 | the other direction: any four octets read as an address and split again give the same octets |
| Ipv4.ProtocolOf | src/netlib/protos/ip.h:20-25 | decoding a protocol number yields a protocol whose ip_proto_t code is that number |
| Ipv4.ProtocolCodeRoundTrip | src/netlib/protos/ip.h:20-25 | every protocol decodes back from its code (IP 0, ICMP 1, TCP 6, UDP 17) |
| Ipv4.PrecedenceOf | src/netlib/protos/ip.h:30-40 | every 3-bit value names the precedence whose code it is |
| Ipv4.PrecedenceRoundTrip | src/netlib/protos/ip.h:30-40 | precedence code and name are inverse both ways |
| Ipv4.EcnOf | src/netlib/protos/ip.h:46-54 | every 2-bit value names the ECN codepoint whose code it is |
| Ipv4.EcnRoundTrip | src/netlib/protos/ip.h:46-54 | ECN code and name are inverse both ways |
| Ipv4.DscpCode | src/netlib/protos/ip.h:61-95 | every DSCP name has a 6-bit code |
| Ipv4.DscpCodeNotInjective | src/netlib/protos/ip.h:61-95 | DF (default forwarding) and CS0 are two names for code 0 |
| Ipv4.DscpCodesOtherwiseDistinct | src/netlib/protos/ip.h:61-95 | that is the only clash: two different names share a code only if they are DF and CS0 |
| Ipv4.ClassSelectorsKeepPrecedence | src/netlib/protos/ip.h:64-72 | class selector CSn has code 8·n, so its top three bits are the old precedence n |
| Ipv4.IpFlagMasksDisjointSingleBits | src/netlib/protos/ip.h:126-130 | ip_flag_t values EV, DF, MF are single bits and pairwise disjoint |
| Ipv4.WithVersion | src/netlib/protos/ip.h:176-182 | writing ver sets the high nibble of byte 0, keeps ihl, and changes no other byte |
| Ipv4.WithIhl | src/netlib/protos/ip.h:176-182 | writing ihl sets the low nibble of byte 0, keeps ver, and changes no other byte |
| Ipv4.TosBitMask | src/netlib/protos/ip.h:102-122 | each named ToS bit (low delay … must-be-zero) is one bit below the 3-bit precedence |
| Ipv4.WithTos | src/netlib/protos/ip.h:183-196 | writing the whole ToS byte changes byte 1 only |
| Ipv4.WithDscp | src/netlib/protos/ip.h:183-196 | writing dscp sets the top six bits of byte 1, keeps ecn, and the ToS byte then reads dscp·4 + ecn |
| Ipv4.WithEcn | src/netlib/protos/ip.h:183-196 | writing ecn sets the low two bits, keeps dscp, and changes no other byte |
| Ipv4.WithPrec | src/netlib/protos/ip.h:102-122 | writing precedence keeps every named ToS bit |
| Ipv4.WithTosBit | src/netlib/protos/ip.h:102-122 | setting one ToS bit gives it the new value and keeps every other bit of the ToS byte |
| Ipv4.WithTosBitKeepsOthers | src/netlib/protos/ip.h:102-122 | setting one ToS flag leaves each other flag as it was |
| Ipv4.WithTosBitKeepsPrec | src/netlib/protos/ip.h:102-122 | setting a ToS flag leaves the precedence and every byte but the ToS byte unchanged |
| Ipv4.TosViews | src/netlib/protos/ip.h:102-122 | the three views of byte 1 agree: ToS = dscp·4 + ecn = precedence·32 + the named bits |
| Ipv4.WithLen | src/netlib/protos/ip.h:197 | total length is a big-endian word at bytes 2-3 and nothing else moves |
| Ipv4.WithId | src/netlib/protos/ip.h:198 | identification is a big-endian word at bytes 4-5 and nothing else moves |
| Ipv4.WithFlagBits | src/netlib/protos/ip.h:213-219 | writing flag_bits sets the top three bits of byte 6 and keeps the fragment offset |
| Ipv4.WithFragOfs | src/netlib/protos/ip.h:213-219 | writing fragofs sets the low 13 bits of bytes 6-7 and keeps the flag bits |
| Ipv4.WithIpFlag | src/netlib/protos/ip.h:126-130 | setting one flag (by its ip_flag_t bit) changes that flag only, keeping the other two and the offset |
| Ipv4.WithExpandedFlagAsWritten | src/netlib/protos/ip.h:220-225 | setting a flag through the big-endian `flags` struct as declared sets the bit that struct assigns to the name, leaves every other named bit and the fragment offset as they were, and changes no byte outside the flags/offset word |
| Ipv4.EvilBitAsWrittenSetsMoreFragments | src/netlib/protos/ip.h:220-225 | through that struct, `flags.ev` on a clear header sets More Fragments and leaves the evil bit clear; WithIpFlag does the reverse |
| Ipv4.MoreFragmentsAsWrittenSetsEvil | src/netlib/protos/ip.h:220-225 | through that struct, `flags.mf` on a clear header sets the evil bit and leaves More Fragments clear; WithIpFlag does the reverse |
| Ipv4.FlagWordViews | src/netlib/protos/ip.h:213-219 | bytes 6-7 are one word: flag bits in its top three bits, fragment offset (at most 8191) below |
| Ipv4.WithTtl | src/netlib/protos/ip.h:228 | TTL is byte 8 and nothing else moves |
| Ipv4.WithProto | src/netlib/protos/ip.h:229 | protocol is byte 9 and nothing else moves |
| Ipv4.WithChksum | src/netlib/protos/ip.h:230 | checksum is a big-endian word at bytes 10-11 and nothing else moves |
| Ipv4.WithSaddr | src/netlib/protos/ip.h:231 | source address is the big-endian word at bytes 12-15 and nothing else moves |
| Ipv4.WithDaddr | src/netlib/protos/ip.h:232 | destination address is the big-endian word at bytes 16-19 and nothing else moves |
| Ipv4.SaddrOctets | src/netlib/protos/ip.h:231 | bytes 12-15 are the octets of the source address |
| Ipv4.DaddrOctets | src/netlib/protos/ip.h:232 | bytes 16-19 are the octets of the destination address |
| Ipv4.DecodeEncode | src/netlib/protos/ip.h:175-237 | reading every field of an encoded 20-byte header gives back the fields |
| Ipv4.EncodeDecode | src/netlib/protos/ip.h:175-237 | every 20-byte header is the encoding of its decoded fields, so the field record and the bytes are in bijection |
| Ipv4.EncodeWithVersion | src/netlib/protos/ip.h:176-182 | the byte-level setter agrees with updating the field record |
| Ipv4.EncodeWithIhl | src/netlib/protos/ip.h:176-182 | the byte-level setter agrees with updating the field record |
| Ipv4.EncodeWithLen | src/netlib/protos/ip.h:197 | the byte-level setter agrees with updating the field record |
| Ipv4.EncodeWithTtl | src/netlib/protos/ip.h:228 | the byte-level setter agrees with updating the field record |
| Ipv4.EncodeWithProto | src/netlib/protos/ip.h:229 | the byte-level setter agrees with updating the field record |
| Ipv4.EncodeWithSaddr | src/netlib/protos/ip.h:231 | the byte-level setter agrees with updating the field record |
| Ipv4.EncodeWithDaddr | src/netlib/protos/ip.h:232 | the byte-level setter agrees with updating the field record |
| Ipv4.EncodeWithTos | src/netlib/protos/ip.h:183-185 | the byte-level setter agrees with updating the field record |
| Ipv4.EncodeWithId | src/netlib/protos/ip.h:198 | the byte-level setter agrees with updating the field record |
| Ipv4.EncodeWithFlagBits | src/netlib/protos/ip.h:214-216 | writing the three flag bits in the bytes agrees with updating them in the record, and leaves the fragment offset alone |
| Ipv4.EncodeWithFragOfs | src/netlib/protos/ip.h:214-218 | writing the 13-bit fragment offset in the bytes agrees with updating it in the record, and leaves the flag bits alone |
| Ipv4.EncodeWithChksum | src/netlib/protos/ip.h:230 | the byte-level setter agrees with updating the field record |
| Tcp.FlagIndex | src/netlib/protos/tcp.h:13-22 | each TCP flag has a bit position below 8 |
| Tcp.FlagMask | src/netlib/protos/tcp.h:13-22 | each TCP flag constant is a single bit |
| Tcp.FlagMasksDistinctBits | src/netlib/protos/tcp.h:13-22 | flag n is 1 << n (FIN 0 … CWR 7) and distinct flags share no bit |
| Tcp.WithFlags | src/netlib/protos/tcp.h:25-50 | writing the flags bitfield sets byte 13 only |
| Tcp.WithFlag | src/netlib/protos/tcp.h:25-50 | setting one expanded flag bit changes that flag only |
| Tcp.FlagByteIsNamedBits | src/netlib/protos/tcp.h:25-50 | the two views of the flag byte agree: the byte is the OR of the eight named bits, CWR the top one |
| Tcp.SynAloneIsTwo | src/netlib/protos/tcp.h:13-22 | setting only SYN on a clear flag byte gives 0x02 |
| Tcp.WithDataOfs | src/netlib/protos/tcp.h:146-152 | data offset is the high nibble of byte 12; reserved is kept |
| Tcp.WithReserved | src/netlib/protos/tcp.h:146-152 | reserved is the low nibble of byte 12; data offset is kept |
| Tcp.WithSport | src/netlib/protos/tcp.h:142 | source port is the big-endian word at bytes 0-1 and nothing else moves |
| Tcp.WithDport | src/netlib/protos/tcp.h:143 | destination port is the big-endian word at bytes 2-3 and nothing else moves |
| Tcp.WithSeqnum | src/netlib/protos/tcp.h:144 | sequence number is the big-endian word at bytes 4-7 and nothing else moves |
| Tcp.WithAcknum | src/netlib/protos/tcp.h:145 | acknowledgment number is the big-endian word at bytes 8-11 and nothing else moves |
| Tcp.WithWindow | src/netlib/protos/tcp.h:154 | window is the big-endian word at bytes 14-15 and nothing else moves |
| Tcp.WithChksum | src/netlib/protos/tcp.h:155 | checksum is the big-endian word at bytes 16-17 and nothing else moves |
| Tcp.WithUrgptr | src/netlib/protos/tcp.h:156 | urgent pointer is the big-endian word at bytes 18-19 and nothing else moves |
| Tcp.EncodeLayout | src/netlib/protos/tcp.h:141-158 | the encoding places sport, dport, seqnum, acknum, the offset/reserved byte and the flag byte in declaration order |
| Tcp.DecodeEncode | src/netlib/protos/tcp.h:141-161 | reading every field of an encoded 20-byte header gives back the fields |
| Tcp.EncodeDecode | src/netlib/protos/tcp.h:141-161 | every 20-byte header is the encoding of its decoded fields |
| Tcp.EncodeWithSport | src/netlib/protos/tcp.h:142 | the byte-level setter agrees with updating the field record |
| Tcp.EncodeWithDport | src/netlib/protos/tcp.h:143 | the byte-level setter agrees with updating the field record |
| Tcp.EncodeWithSeqnum | src/netlib/protos/tcp.h:144 | the byte-level setter agrees with updating the field record |
| Tcp.EncodeWithAcknum | src/netlib/protos/tcp.h:145 | the byte-level setter agrees with updating the field record |
| Tcp.EncodeWithWindow | src/netlib/protos/tcp.h:154 | the byte-level setter agrees with updating the field record |
| Tcp.EncodeWithChksum | src/netlib/protos/tcp.h:155 | the byte-level setter agrees with updating the field record |
| Tcp.EncodeWithUrgptr | src/netlib/protos/tcp.h:156 | the byte-level setter agrees with updating the field record |
| Tcp.EncodeWithFlag | src/netlib/protos/tcp.h:153 | setting one flag in the bytes agrees with setting its bit in the record's flag byte |
| Tcp.OptionKindCode | src/netlib/protos/tcp.h:56-117 | every option kind has a code of at most 254 |
| Tcp.OptionKindRoundTrip | src/netlib/protos/tcp.h:56-117 | every option kind decodes back from its code |
| Tcp.OptionKindOfSound | src/netlib/protos/tcp.h:56-117 | any code that decodes names the kind with that code, so codes are distinct and the decoder is exact |
| LegacyTcp.FlagConstantsSingleBits | src/netinet.h:38-45 | TCP_FIN … TCP_CWR are eight disjoint single bits, the n-th being 1 << n, equal to the newer tcp_flag_t values |
| LegacyTcp.ViewsPacked | src/netinet.h:48-102 | both views are packed: each field starts where the previous ends, both are 480 bits, and the options array is bits 160-479 in each |
| LegacyTcp.AliasesShareLocation | src/netinet.h:50-100 | each long-named field of view 1 and its short-named twin of view 2 have the same offset and width |
| LegacyTcp.AliasesReadAlike | src/netinet.h:50-100 | so, over any 60-byte storage, a field and its twin read the same bits |
| LegacyTcp.ByteBitsAreFlags | src/netinet.h:38-45 | bit 7 − n of a byte, most significant first, is the flag with index n |
| LegacyTcp.FlagsByteIsExpandedBits | src/netinet.h:62 | view 1's flags byte covers the eight one-bit flags of view 2, CWR first, and each reads as its flag |
| LegacyTcp.DataOffsetIsHighNibble | src/netinet.h:84-95 | dat and rsv read the high and low nibble of byte 12, as the newer header's data offset and reserved |
| LegacyTcp.PortsAreNetworkWords | src/netinet.h:50-100 | sport and dpt read the big-endian port words of the newer header |
| LegacyTcp.SourcePortIsNetworkWord | src/netinet.h:51 | view 1's sport reads the newer header's source port |
| LegacyTcp.DestPortIsNetworkWord | src/netinet.h:68-100 | view 2's dpt reads the newer header's destination port |
| Packet.Span | src/packet.c:41-43 | the number of addresses in [start, end] is between 1 and 2^32 and is end − start + 1 when start ≤ end |
| Packet.SpoofAddressInRange | src/packet.c:88-92 | for start ≤ end, the drawn source address lies within [start, end] |
| Packet.SpoofAddressSingle | src/packet.c:88-92 | a one-address range always draws that address |
| Packet.SpoofAddressCovers | src/packet.c:88-92 | every address of the range is drawn by some value of rand() (while the range fits RAND_MAX) |
| Packet.SpanAsWritten | src/packet.c:41-43 | the divisor computed in 32-bit unsigned arithmetic lies in [0, 2^32) |
| Packet.SpoofAddressAsWrittenAgrees | src/packet.c:88-92 | whenever that divisor is non-zero, the 32-bit draw equals the intended one |
| Packet.SpanAsWrittenZeroIffFullRange | src/packet.c:41-43 | the 32-bit divisor is 0 exactly when end + 1 wraps round to start: among ordered ranges only for the full range 0.0.0.0-255.255.255.255, and for every reversed range whose end is start - 1. There `rand() % 0` is undefined |
| Packet.Image | src/packet.c:20-26 | the buffer holds exactly IP_PKT_MTU bytes |
| Packet.ImageViews | src/packet.c:20-26 | the IPv4 header sits at byte 0 and the TCP header at byte 20, each decoding to its fields, and every later byte is 0 |
| Packet.ZeroImage | src/packet.c:20 | the buffer `= {0}` is the image of two all-zero headers |
| Packet.Template | src/packet.c:34-59 | the crafted packet is IP_PKT_MTU bytes |
| Packet.TemplateViews | src/packet.c:34-59 | the template reads version 4, IHL 5, TTL 128, protocol TCP, length 40, the destination address and port, the drawn source port and sequence number, SYN alone set, and zero elsewhere |
| Packet.TemplateSourceInRange | src/packet.c:41-43 | the template's source address is one of the configured range |
| Packet.TemplateSteps | src/packet.c:34-59 | the template is the zero header with exactly the nine assignments of send_packets applied |
| Packet.Refresh | src/packet.c:88-93 | refreshing keeps the buffer size |
| Packet.RefreshFrame | src/packet.c:88-93 | a refresh changes no byte outside the source address (12-15) and the source port (20-21) |
| Packet.RefreshKeepsTemplate | src/packet.c:86-104 | refreshing a template with new draws gives the template for those draws, so every packet sent is a SYN of the same shape |
| Packet.CraftPacket | src/packet.c:20-66 | the method fills a fresh zeroed buffer into the template and returns packet_length 40 |
| Packet.RefreshPacket | src/packet.c:88-93 | the method rewrites the buffer in place into its refresh |
| Packet.SendPackets | src/packet.c:86-104 | one sent packet per draw, each being the first 40 bytes of the template for that draw |
| Packet.SentPacketsInRange | src/packet.c:86-104 | every packet sent is 40 bytes with a source address in the configured range |
| Packet.NextPacket | src/packet.c:88-103 | one pass of the loop turns the previous draw's template into this draw's and transmits its first 40 bytes |
| Packet.TransmittedAt | src/packet.c:86-104 | the i-th packet of a run is the first 40 bytes of the template for the i-th draw |
| Packet.SentPacketInRange | src/packet.c:86-104 | a packet sent is 40 bytes, has a source address in the configured range and carries the sequence number drawn before the loop |
| Startup.DefaultHeaderFields | src/main.c:137-145 | the default header is 0x45 in byte 0, length 40 stored as 0x00 0x28, TTL 128, protocol 6, and zero in every other field and view |
| Startup.FillDefaults | src/main.c:123-146 | fill_defaults sets LOG_INFO, one thread per core and the default header, and nothing else |
| Startup.HandleKeepsDiagnostics | src/cmdline/parser.c:457-758 | handle_option never touches the error flag or the core count |
| Startup.ParseFromKeepsDiagnostics | src/cmdline/parser.c:775-843 | nor does the parse loop |
| Startup.ParseKeepsDiagnostics | src/cmdline/parser.c:761-846 | nor does parse_args |
| Startup.ExitStatusCases | src/main.c:148-231 | main floods without returning exactly when allocation, parsing and the socket succeed on a run that is not information-only; otherwise it returns EXIT_SUCCESS or EXIT_FAILURE, failing exactly when allocation failed, parsing failed, or a run that is not information-only could not open its socket, and succeeding exactly on an information-only run |
| Startup.NoArgumentsFails | src/main.c:179-183 | run with no arguments, main fails |
| Startup.HelpRunSucceeds | src/main.c:184-187 | `blitzping --help` succeeds whether or not a socket could be opened |
| Startup.RunMain | src/main.c:148-231 | the step-by-step main ends as MainEnding says: a status from CLEANUP, or the never-ending flood |
| CmdlineValues.ToLowercase | src/cmdline/parser.c:21-31 | the loop returns the string with every character passed through tolower |
| CmdlineValues.ProtocolRow | src/cmdline/parser.c:186-191 | every protocol has a row whose key is its ip_proto_t code |
| CmdlineValues.DscpRow | src/cmdline/parser.c:211-236 | every DSCP name has a row whose key is its code |
| CmdlineValues.FirstMatch | src/cmdline/parser.c:68-88 | the lookup finds the first row whose name equals the value (after folding case when asked) and None exactly when no row does |
| CmdlineValues.NameListFits | src/cmdline/parser.c:96-111 | the error message's list of names fits the buffer size the C code computes for it |
| CmdlineValues.GetKeyFromName | src/cmdline/parser.c:52-124 | the method returns the key of the first match, or −1 with the error flag and the list of valid names |
| CmdlineValues.FirstMatchIsAt | src/cmdline/parser.c:68-88 | a row that matches with no earlier match is the one found |
| CmdlineValues.KeyOfIgnoresCase | src/cmdline/parser.c:68-88 | with case folding on, values equal up to case give the same key |
| CmdlineValues.FirstMatchSameFold | src/cmdline/parser.c:68-88 | with case folding on, values equal up to case find the same row |
| CmdlineValues.LookupFindsEachName | src/cmdline/parser.c:52-124 | in a table of distinct lower-case names, every spelling of a row's name finds that row's key |
| CmdlineValues.ProtocolNamesResolve | src/cmdline/parser.c:186-191 | the protocol names are distinct and lower case |
| CmdlineValues.PrecedenceNamesResolve | src/cmdline/parser.c:193-202 | the precedence names are distinct and lower case |
| CmdlineValues.EcnNamesResolve | src/cmdline/parser.c:204-209 | the ECN names are distinct and lower case |
| CmdlineValues.DscpNamesResolve | src/cmdline/parser.c:211-236 | the DSCP names are distinct and lower case |
| CmdlineValues.ValidateRange | src/cmdline/parser.c:126-156 | an accepted value lies in [min, max] |
| CmdlineValues.ValidateRangeDecimal | src/cmdline/parser.c:126-156 | every in-range number written in decimal is accepted as itself |
| CmdlineValues.ValidateRangeRejectsTrailing | src/cmdline/parser.c:126-156 | a number followed by a non-digit is rejected |
| CmdlineValues.ValidateRangeEmptyIsZero | src/cmdline/parser.c:126-156 | the empty string converts nothing, leaves the end pointer at the NUL, and so reads as 0 |
| CmdlineValues.ValidateRangeRejectsBlanks | src/cmdline/parser.c:126-156 | a non-empty all-blank value is rejected |
| CmdlineValues.TextOrIntWithin | src/cmdline/parser.c:158-183 | when every table key is within bounds, any accepted value is within bounds |
| CmdlineValues.TablesWithinBounds | src/cmdline/parser.c:186-236 | the protocol, precedence, ECN and DSCP keys lie in the ranges their options check |
| CmdlineValues.TextOrIntDecimal | src/cmdline/parser.c:158-183 | a value that starts with a digit is read as a number, never looked up as a name |
| CmdlineValues.ParseTextOrInt | src/cmdline/parser.c:158-183 | the method returns the value or −1 with the error flag, as its specification |
| Cmdline.RangeHandledIsNumeric | src/cmdline/parser.c:505-522 | options read by validate_range are handled by the common numeric path |
| Cmdline.StoreThenField | src/cmdline/parser.c:563-710 | storing a value into a bitfield keeps it modulo the field's width (the logger level is stored whole) |
| Cmdline.BoundsFitFields | src/cmdline/parser.c:563-710 | with the DSCP bound corrected to 63, every option's checked range fits its field (the written bound 64 does not fit the 6-bit field) |
| Cmdline.StoreWithinBounds | src/cmdline/parser.c:563-710 | so, with the DSCP bound corrected to 63, a value within the range reads back unchanged |
| Cmdline.ReadValueWithin | src/cmdline/parser.c:126-183 | a value the reader accepts is within the option's range |
| Cmdline.NumericOptionStoresValue | src/cmdline/parser.c:494-710 | in the corrected handler (DSCP bound 63), a numeric option fails exactly when its value is rejected, and otherwise the field reads the value, within bounds |
| Cmdline.RejectedValueStoresAllOnes | src/cmdline/parser.c:126-156 | a rejected value still stores −1, which reads as all ones in a bitfield and LOG_NONE in the logger level |
| Cmdline.HandleFlags | src/cmdline/parser.c:457-758 | every option leaves the override flags it does not own as they were |
| Cmdline.OverrideFlagsSetExactly | src/cmdline/parser.c:541-710 | override_source, override_length and override_checksum are raised by --src-ip, --len and --checksum and by nothing else |
| Cmdline.InfoOptions | src/cmdline/parser.c:466-484 | opt_info is raised exactly by --help, --about and --version, which never fail |
| Cmdline.AddressOptions | src/cmdline/parser.c:541-562 | a valid dotted quad is stored as the source or destination address; an invalid one fails and leaves the header unchanged |
| Cmdline.HandleAddress | src/cmdline/parser.c:541-562 | the address options are handled by the address path |
| Cmdline.HandleDscpAsWritten | src/cmdline/parser.c:613-626 | with the bound 64 as written, --dscp fails exactly when the value is rejected under [0, 64] |
| Cmdline.DscpSixtyFourWraps | src/cmdline/parser.c:621 | `--dscp 64` is accepted as written and stores DSCP 0; with the bound 63 it fails |
| Cmdline.HandleFlagAsWritten | src/cmdline/parser.c:664-675 | --evil-bit/--dont-frag/--more-frag as written never fail, set the bit the struct of ip.h names and change nothing in the record but the IPv4 header |
| Cmdline.EvilBitOptionAsWritten | src/cmdline/parser.c:664-675 | as written, --evil-bit on a clear header sets More Fragments and not the evil bit; the corrected handler does the reverse |
| Cmdline.HandleAsWrittenAgrees | src/cmdline/parser.c:457-758 | handle_option as written and the corrected handler agree on every option but `--dscp`, `--evil-bit` and `--more-frag` (`--dont-frag` sets the same bit either way) |
| Cmdline.DscpAsWrittenDiffers | src/cmdline/parser.c:613-626 | as written `--dscp 64` is accepted; the corrected handler rejects it |
| Cmdline.EvilBitAsWrittenDiffers | src/cmdline/parser.c:664-667 | on a header without flags, `--evil-bit` as written raises More Fragments; the corrected handler does not |
| Cmdline.MoreFragAsWrittenDiffers | src/cmdline/parser.c:672-675 | on a header without flags, `--more-frag` as written raises the evil bit; the corrected handler does not |
| Cmdline.ParseFromAgreesAsWritten | src/cmdline/parser.c:775-845 | a parse loop whose options avoid `--dscp`, `--evil-bit` and `--more-frag` ends with the same record and status as written and corrected |
| Cmdline.ParseAgreesAsWritten | src/cmdline/parser.c:761-846 | so parse_args as written and corrected agree on every such command line |
| Cmdline.HandleOption | src/cmdline/parser.c:457-758 | the method leaves the record and returns the error that the corrected handler Handle specifies |
| Cmdline.HandleSwitchOption | src/cmdline/parser.c:466-754 | the switch options, as in the corrected handler Handle |
| Cmdline.HandleSettingSwitch | src/cmdline/parser.c:466-531 | the general and advanced switches, as in Handle |
| Cmdline.HandleBitSwitch | src/cmdline/parser.c:593-675 | the ToS and flag bit switches, as in the corrected handler Handle (`--evil-bit` sets IP_FLAG_EV) |
| Cmdline.HandleLayerSwitch | src/cmdline/parser.c:716-748 | the layer switches, as in Handle |
| Cmdline.HandleAddressOption | src/cmdline/parser.c:541-562 | the address options, as in Handle |
| Cmdline.HandleNumericOption | src/cmdline/parser.c:494-710 | the numeric options, as in the corrected handler Handle (`--dscp` checked against [0, 63]) |
| Cmdline.HandleRuntimeOption | src/cmdline/parser.c:494-522 | logger level, thread count and buffer size, as in Handle |
| Cmdline.HandleNamedOption | src/cmdline/parser.c:579-702 | the options read by name or number, as in the corrected handler Handle (`--dscp` checked against [0, 63]) |
| Cmdline.HandleRangeOption | src/cmdline/parser.c:563-710 | the header options read by validate_range, as in Handle |
| Cmdline.StoreRange | src/cmdline/parser.c:563-710 | the record after storing a range-checked value into its header field, as Store specifies |
| Cmdline.StoreVersion | src/cmdline/parser.c:563-567 | the record after storing ver |
| Cmdline.StoreIhl | src/cmdline/parser.c:568-572 | the record after storing ihl |
| Cmdline.StoreTos | src/cmdline/parser.c:573-578 | the record after storing the ToS byte |
| Cmdline.StoreLen | src/cmdline/parser.c:641-649 | the record after storing the total length and raising override_length |
| Cmdline.StoreIdent | src/cmdline/parser.c:650-656 | the record after storing the identification |
| Cmdline.StoreFlags | src/cmdline/parser.c:657-663 | the record after storing the flag bits |
| Cmdline.StoreFragOfs | src/cmdline/parser.c:676-682 | the record after storing the fragment offset |
| Cmdline.StoreTtl | src/cmdline/parser.c:683-688 | the record after storing the TTL |
| Cmdline.StoreChecksum | src/cmdline/parser.c:703-710 | the record after storing the checksum and raising override_checksum |
| Cmdline.OptName | src/cmdline/parser.c:779 | the option name is the argument without its one leading character, or two when the second is '-' |
| Cmdline.NamePart | src/cmdline/parser.c:787-790 | the part before '=' is an '='-free prefix of the option text |
| Cmdline.MatchesIsNamePart | src/cmdline/parser.c:787-790 | for an '='-free table name, the prefix test matches exactly when the name equals the text before '=' |
| Cmdline.FindFrom | src/cmdline/parser.c:782-790 | the scan finds the first table entry that matches, and None exactly when none does |
| Cmdline.LookupOption | src/cmdline/parser.c:782-790 | the loop returns that first entry's index, or −1 when there is none |
| Cmdline.TakeValue | src/cmdline/parser.c:793-804 | the value is the text after '=' or else the next argument when it does not read as an option; only the latter consumes an argument |
| Cmdline.NextStep | src/cmdline/parser.c:775-842 | each step stops with status 1 or hands an option to handle_option and moves forward |
| Cmdline.ParseArgs | src/cmdline/parser.c:761-846 | the method leaves the record and returns the status that Parse specifies, over the corrected handler |
| Cmdline.ParseOptions | src/cmdline/parser.c:775-845 | the loop matches the recursive ParseFrom, over the corrected handler |
| Cmdline.ParseOneOption | src/cmdline/parser.c:776-842 | one loop step, over the corrected handler: either the final state and status, or a later index from which the rest of the parse is unchanged |
| Cmdline.ScanOption | src/cmdline/parser.c:778-814 | the scan of one argument finds an option exactly when NextStep takes one, and the same option, value and next index |
| Cmdline.OptionNamesHaveNoEquals | src/cmdline/parser.c:369-452 | no option name contains '=' |
| Cmdline.FindFromByName | src/cmdline/parser.c:782-790 | over such a table an option is found exactly when some name equals the text before '=', and then the first such |
| Cmdline.ParseFromStatus | src/cmdline/parser.c:775-845 | the loop returns 0 or 1 |
| Cmdline.ParseStatus | src/cmdline/parser.c:761-846 | parse_args returns 0 or 1 |
| Cmdline.ParseDash | src/cmdline/parser.c:778-821 | "-" and "--" reach the nameless entry, whose handler reports an error, so parse_args returns 1 |
| Cmdline.HelpRaisesInfo | src/cmdline/parser.c:466-470 | --help raises opt_info and changes nothing else |
| Cmdline.HelpIsSecondOption | src/cmdline/parser.c:369-452 | "help" is found at index 1, after the nameless entry |
| Cmdline.HelpArgument | src/cmdline/parser.c:775-816 | `--help` alone is taken as the help switch with an empty value |
| Cmdline.ParseHelp | src/cmdline/parser.c:761-846 | `blitzping --help` returns 0 with opt_info raised and the executable name recorded |
| Cmdline.LastOptionEndsParse | src/cmdline/parser.c:816-845 | with a single option, the parse returns the handler's record and 1 exactly when the handler failed |
| CLib.ToLower | src/cmdline/parser.c:21-31 | tolower maps A-Z to a-z and leaves every other character |
| CLib.LowerIdempotent | src/cmdline/parser.c:21-31 | lowering twice is lowering once, and a string with no capitals is its own lower case |
| CLib.LowerEqualIff | src/cmdline/parser.c:21-31 | two strings lower to the same text exactly when they are equal up to case character by character |
| CLib.DecimalRoundTrip | src/cmdline/parser.c:126-156 | a number written in decimal reads back as itself |
| CLib.Strtol | src/cmdline/parser.c:126-156 | strtol's end index lies within the string and its value within `long` |
| CLib.StrtolDecimal | src/cmdline/parser.c:126-156 | strtol reads a decimal numeral whole, without a range error |
| CLib.Atoi | src/parser.c:320-324 | atoi is strtol's value truncated to int; within int it is that value |
| CLib.Tokens | src/parser.c:306-312 | strtok's tokens are non-empty and free of the delimiter |
| CLib.InetPton | src/parser.c:315-318 | an accepted address has exactly four dot-separated parts |
| CLib.InetPtonDotted | src/parser.c:315-318 | every address written as a dotted quad is read back as itself |
| CLib.InetPtonCanonical | src/parser.c:315-318 | every accepted text is the canonical dotted quad of its address |
| CLib.InetAddr | src/parser.c:366-370 | inet_addr gives INADDR_NONE exactly for text inet_pton rejects and for 255.255.255.255 |
| CLib.SplitJoin | src/parser.c:306-312 | splitting at a delimiter and joining again gives the text back |
| CLib.JoinSplit | src/parser.c:306-312 | joining delimiter-free pieces and splitting again gives the pieces back |
| LegacyAddresses.CidrFields | src/parser.c:294-324 | accepted text is at most 18 characters and its prefix is at most 32 |
| LegacyAddresses.ShiftCount | src/parser.c:326-328 | the shift 32 − prefix is at most 32 |
| LegacyAddresses.PrefixMask | src/parser.c:326-328 | the host part of the mask is a run of low one-bits |
| LegacyAddresses.ParseCidr | src/parser.c:294-342 | a CIDR is accepted exactly when its text splits into an address and an in-range prefix; its range uses the intended mask |
| LegacyAddresses.BlockHoldsAddress | src/parser.c:326-328 | the range holds the given address |
| LegacyAddresses.BlockNetwork | src/parser.c:326-328 | both ends share the address's network part |
| LegacyAddresses.BlockHostBits | src/parser.c:326-328 | the start has all host bits clear and the end all host bits set |
| LegacyAddresses.BlockMembers | src/parser.c:326-328 | every address with the same network part lies within the range |
| LegacyAddresses.BlockEmptyMask | src/parser.c:326-328 | an all-zero mask covers the whole address space |
| LegacyAddresses.BlockFullMask | src/parser.c:326-328 | an all-ones mask gives the single address |
| LegacyAddresses.CidrRangeExtremes | src/parser.c:326-328 | /0 is the whole address space and /32 the single address |
| LegacyAddresses.CidrFieldsDotted | src/parser.c:294-342 | every dotted quad with a prefix up to 32 is accepted with that address and prefix |
| LegacyAddresses.CidrRejectsMalformed | src/parser.c:297-318 | text that is too long, lacks a '/'-separated second token, or has an invalid address is rejected |
| LegacyAddresses.CidrRejectsPrefix | src/parser.c:320-324 | a prefix below 0 or above 32 is rejected |
| LegacyAddresses.ParseCidrAsWritten | src/parser.c:294-342 | the parser with the C shift accepts the same texts |
| LegacyAddresses.MaskAsWrittenAgrees | src/parser.c:326 | for prefixes 1 to 32 the C shift gives the intended mask |
| LegacyAddresses.MaskAsWrittenSlashZero | src/parser.c:326 | for prefix 0 the C shift (count masked to 0) gives all ones, not 0 |
| LegacyAddresses.SlashZeroAsWritten | src/parser.c:326-328 | so `a/0` as written yields the single address a |
| LegacyAddresses.SlashZeroIntended | src/parser.c:326-328 | the intended `a/0` yields 0.0.0.0-255.255.255.255 |
| LegacyAddresses.ParseIpCidr | src/parser.c:294-342 | the method succeeds exactly on accepted text, storing its range under the intended mask (`a/0` is the whole space), and otherwise fails and leaves the range unchanged |
| LegacyAddresses.IpPort | src/parser.c:344-379 | success means the text fits 21 characters and has a valid address and a port in [0, 65535]; a port is read only after a valid address |
| LegacyAddresses.IpPortRejectsMalformed | src/parser.c:347-364 | text that is too long or lacks a ':'-separated second token fails and stores nothing |
| LegacyAddresses.IpPortRejectsAddress | src/parser.c:366-370 | an address inet_addr rejects (including 255.255.255.255) fails after storing INADDR_NONE |
| LegacyAddresses.IpPortRejectsPort | src/parser.c:372-376 | once a port is read, the call fails exactly when it is outside [0, 65535] |
| LegacyAddresses.IpPortDotted | src/parser.c:344-379 | every dotted quad other than 255.255.255.255 with a port up to 65535 is accepted with that address and port |
| LegacyAddresses.ParseIpPort | src/parser.c:344-379 | the method returns the status and stores the address and port that IpPort reads, keeping what it does not reach |
| LegacyParser.Handle | src/parser.c:409-570 | handle_option ends the program only for a numeric option, and otherwise keeps the executable name |
| LegacyParser.NumericOption | src/parser.c:381-407 | --num-threads and --buffer-size end the program exactly when validate_range rejects the value, and otherwise store it within [0, UINT_MAX] or [0, 200809] |
| LegacyParser.NumThreadsDecimal | src/parser.c:448-453 | `--num-threads n` for any n up to UINT_MAX stores n |
| LegacyParser.BufferSizeTooLarge | src/parser.c:458-463 | a buffer size above _POSIX_VERSION ends the program |
| LegacyParser.HandleOption | src/parser.c:409-570 | the method ends the program or leaves the record exactly as Handle specifies |
| LegacyParser.FindFrom | src/parser.c:631-634 | the scan finds the first matching table entry, and None exactly when none matches |
| LegacyParser.NextStep | src/parser.c:619-679 | each step stops with 1 or takes a table option; a switch takes no value and moves one argument on; an option with a value has a usable one |
| LegacyParser.ParseArgs | src/parser.c:605-682 | the method ends the program, or leaves the record and returns the status, as Parse specifies |
| LegacyParser.ParseOptions | src/parser.c:619-681 | the loop matches the recursive ParseFrom |
| LegacyParser.LookupOption | src/parser.c:628-671 | the loop returns the first matching entry's index, or −1 when none matches |
| LegacyParser.ScanOption | src/parser.c:622-661 | the scan of one argument finds an option exactly when NextStep takes one, with the same option, value and next index |
| LegacyParser.ParseFromStatus | src/parser.c:619-681 | when the loop returns, it returns 0 or 1 |
| LegacyParser.ParseStatus | src/parser.c:605-682 | when parse_args returns, it returns 0 or 1 |
| LegacyParser.ParseFromExitsOnlyOnNumbers | src/parser.c:619-681 | if no option taken is numeric, the loop always returns instead of ending the program |
| LegacyParser.NoArguments | src/parser.c:613-616 | with no arguments, parse_args records the executable name and returns 1 |
| LegacyParser.NonOptionStops | src/parser.c:676-679 | an argument not starting with '-' or '/' stops the parse with 1 and the record unchanged |
| LegacyParser.UnknownOptionStops | src/parser.c:665-671 | an option matching no entry stops the parse with 1 and the record unchanged |
| LegacyParser.LoneDashAccepted | src/parser.c:622-661 | "-" and "--" match the nameless entry 0, whose handler only prints a message, so parse_args returns 0 |
| LegacyParser.OptionNamesNotOneLetter | src/parser.c:243-291 | every named entry of the table has a name longer than one character |
| LegacyParser.ShortFlagsUnknown | src/parser.c:622-671 | one-letter forms such as `-?` are unknown options: the one-letter flags are never consulted |
| LegacyParser.SwitchLeavesNextArgument | src/parser.c:636-679 | a switch does not consume the next argument, so `--quiet yes` sets quiet and then stops at "yes" with 1 |

## Left out

- The flood loop of `send_packets` runs forever and calls `sendto`. `Packet.SendPackets` models a finite run. It records the bytes that would be sent, one packet per pair of `rand()` draws. `srand(time(0))` is not modelled, and the `rand()` values are parameters.
- Packet.SendPackets: like `Packet.SpoofAddress` and `Packet.Template`, it draws with the corrected `Packet.Span`. So on the full range 0.0.0.0-255.255.255.255, or on a reversed range whose end is start - 1, it draws over all 2^32 addresses. There the code at src/packet.c:41-43 and 88-92 computes `rand() % 0`, which is undefined. That case is stated on the written divisor by `Packet.SpanAsWritten` and `Packet.SpanAsWrittenZeroIffFullRange`.
- Threads, `sysconf`/`diagnose_system`, the socket calls and `calloc` are left out. Their outcomes are parameters of `Startup.RunMain`: `numCores`, `socketOk` and `headerOk`.
- Logging, the help, about and version texts, every other printed message, `logger_set_level` and the socket shutdown and close are not modelled. They do not change the exit status.
- The little-endian layouts are not modelled. The host is taken to be big-endian, so `htons`/`htonl`/`ntohs` leave values unchanged. The endianness checks and the prefetch and intrinsics helpers of `src/utils` are not part of this model.
- IP options and TCP options (the `options[]` flexible arrays) are not modelled beyond the option-kind codes. The IPv6, TCP, UDP and ICMP switches only record which layer was chosen.
- `get_key_from_name`'s failure branch when allocating the list of valid names is not modelled (the C code does not check that allocation).
- Cmdline.AddressOptions: when `inet_pton` rejects the text, the C code stores `htonl` of an uninitialised variable. The model keeps the old address instead.
- CLib.InetAddr: only the four-part decimal form that `inet_pton` accepts is modelled. `inet_addr`'s octal, hexadecimal and fewer-part forms are not.
- CLib.Strtol: only base 10 in the "C" locale is modelled.
- LegacyAddresses.BlockMembers: proves one direction only. An address sharing the network part lies in the range. The converse is not stated.
- LegacyParser.HandleOption: the C code passes a NULL value for switches; the model passes the empty string. Neither is read.
- LegacyParser.ParseArgs: `exit(EXIT_FAILURE)` inside `validate_range` is modelled as the `Exited` outcome. Its message is not modelled.
- Old and new parsers differ on a lone "-" or "--". Both match the nameless first entry. The older handler only prints a message, so parse_args returns 0 (`LegacyParser.LoneDashAccepted`). The newer handler reports an error, so parse_args returns 1 (`Cmdline.ParseDash`).
- Strings contain no NUL character, so the end of a C string is the end of the sequence.
- Cmdline.Handle: this is the corrected handler, with the two bugs under "## Findings" fixed: `--dscp` is checked against [0, 63], and `--evil-bit`/`--more-frag` set IP_FLAG_EV/IP_FLAG_MF. The handler as written is `Cmdline.HandleAsWritten`: it accepts `--dscp 64` and stores DSCP 0, and its `flags.ev`/`flags.mf` set the MF/EV bits. On every other option the two agree (`Cmdline.HandleAsWrittenAgrees`), and so do parse_args as written and corrected on every command line that avoids those three options (`Cmdline.ParseAgreesAsWritten`). The methods below run the corrected handler.
- Cmdline.HandleOption: proved against the corrected `Cmdline.Handle`, so `--dscp 64` fails and `--evil-bit`/`--more-frag` set EV/MF, where the code as written accepts 64 as DSCP 0 and swaps the two bits.
- Cmdline.HandleSwitchOption: its bit switches write the corrected flag bits; the code as written swaps EV and MF (`Cmdline.EvilBitOptionAsWritten`).
- Cmdline.HandleBitSwitch: `--evil-bit` sets IP_FLAG_EV (0x80) and `--more-frag` IP_FLAG_MF (0x20); the code as written sets 0x20 and 0x80.
- Cmdline.HandleNumericOption: checks `--dscp` against [0, 63]; the code as written checks [0, 64] and stores 64 as 0.
- Cmdline.HandleNamedOption: checks `--dscp` against [0, 63]; the code as written checks [0, 64].
- Cmdline.ParseArgs: runs the corrected handler, so `blitzping --dscp 64` returns 1 where the code as written returns 0, and the EV/MF switches are not swapped.
- Cmdline.ParseOptions: the loop is proved against ParseFrom over the corrected handler (see Cmdline.ParseArgs).
- Cmdline.ParseOneOption: one step calls the corrected handler (see Cmdline.ParseArgs).
- Cmdline.BoundsFitFields: holds for the corrected DSCP bound 63 only. The written bound 64 does not fit the 6-bit field.
- Cmdline.StoreWithinBounds: holds for the corrected DSCP bound 63 only. Under the written bound, 64 is in range and reads back 0.
- Cmdline.NumericOptionStoresValue: states the corrected handler. Under the written bound, `--dscp 64` is accepted and reads 0.
- Cmdline.HandleAddressOption: when `inet_pton` rejects the text, the C code stores `htonl` of an uninitialised variable. The method keeps the old address instead, as in Cmdline.AddressOptions.
- Startup.ExitStatusCases: its exit statuses follow the corrected command-line handler (see Cmdline.ParseArgs): `blitzping --dscp 64` fails here where the code as written parses it.
- Startup.RunMain: calls the corrected `Cmdline.ParseArgs` (see there). On the flood path it stops at the call to `send_packets` and reports `Floods`. `main` passes `&program_args`, a `struct ProgramArgs *`, and `send_packets` reads it as a `struct pkt_args *` (src/packet.c:13, src/packet.h:60-68). The socket, address range, ports and destination the flood uses are whatever bytes of the record lie at those offsets. This reinterpretation is not modelled, and `Packet.PktArgs` is a parameter of the packet module, not built from the parsed record.
- LegacyAddresses.ParseIpCidr: stores the range under the intended mask, so `a/0` stores the whole address space. The C shift by 32 is undefined, and it yields the single address where the count is masked (`LegacyAddresses.SlashZeroAsWritten`).
- LegacyAddresses.ParseCidr: the same intended mask for /0 as LegacyAddresses.ParseIpCidr.

## Findings

| source | as written | input that shows it | evidently intended | confidence | as-written member | corrected member |
|---|---|---|---|---|---|---|
| src/cmdline/parser.c:621 | `--dscp` accepts values up to 64 before storing into a 6-bit field | `--dscp 64` is accepted and stores DSCP 0 | upper bound 63, the largest 6-bit code | high, not executed | Cmdline.HandleDscpAsWritten, Cmdline.DscpSixtyFourWraps, Cmdline.DscpAsWrittenDiffers | Cmdline.NumericOptionStoresValue |
| src/netlib/protos/ip.h:220-225 | the big-endian `flags` struct declares mf, df, ev from the top bit down, so `ev` names the bit that ip_flag_t calls MF | `--evil-bit` on a header with no flags sets More Fragments, not the evil bit | ev at the top bit (IP_FLAG_EV), mf at the bottom | high, not executed | Ipv4.WithExpandedFlagAsWritten, Ipv4.EvilBitAsWrittenSetsMoreFragments, Ipv4.MoreFragmentsAsWrittenSetsEvil, Cmdline.EvilBitOptionAsWritten, Cmdline.EvilBitAsWrittenDiffers | Ipv4.WithIpFlag |
| src/packet.c:41-43 | the number of source addresses is `end - start + 1` in 32-bit unsigned arithmetic | the range 0.0.0.0-255.255.255.255 (and any reversed range whose end is start - 1) makes the divisor 0, so `rand() % 0` is undefined | a draw over all 2^32 addresses | high, not executed | Packet.SpanAsWritten, Packet.SpanAsWrittenZeroIffFullRange | Packet.Span, Packet.SpoofAddressInRange |
| src/parser.c:326 | the mask is `(uint32_t)~0 << (32 - prefix_len)` | `10.1.2.3/0` shifts by 32, which C leaves undefined; where the count is masked to 0 the range is the single address 10.1.2.3 | /0 covers the whole address space | medium, not executed | LegacyAddresses.ParseCidrAsWritten, LegacyAddresses.SlashZeroAsWritten | LegacyAddresses.ParseCidr, LegacyAddresses.SlashZeroIntended |
