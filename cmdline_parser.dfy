// The option table, handle_option and parse_args of the command-line parser
// (src/cmdline/parser.c).
//
// handle_option is a method that assigns the fields of a ProgramArgs record
// in place; Handle is the specification it is proved against, stated on
// record snapshots. parse_args is a method with the same index loop as the
// C code, proved against the recursive specification ParseFrom.

module Cmdline {
  import opened Outcomes
  import opened CLib
  import Ipv4
  import opened Program
  import opened CmdlineValues
  import opened Casts

  // ===== the option table =====

  /** enum OptionKind */
  datatype OptionKind =
    | NoOption
    | Help | About | ShowVersion | Quiet
    | BypassChecks | LoggerLevel | NoLogTimestamp | NumThreads | NativeThreads
    | BufferSize | NoAsyncSock | NoMemLock | NoCpuPrefetch
    | Ipv4Header | SrcIp | DestIp | IpVer | IpIhl | IpTos | IpPrec
    | IpMinDelay | IpMaxTput | IpMaxRely | IpMinCost | IpMbzOne
    | IpDscp | IpEcn | IpLen | IpIdent | IpFlags
    | IpEvilBit | IpDontFrag | IpMoreFrag | IpFragOfs | IpTtl | IpProto
    | IpChecksum | IpOptions
    | Ipv6Header | Ip6NextHeader | Ip6HopLimit | Ip6FlowLabel
    | TcpHeader | UdpHeader | IcmpHeader

  /** struct Option, without the unused one-letter flag. */
  datatype OptionSpec = OptionSpec(name: string, hasArg: bool, kind: OptionKind)

  const GENERAL_OPTIONS: seq<OptionSpec> := [
    OptionSpec("", false, NoOption),
    OptionSpec("help", false, Help),
    OptionSpec("about", false, About),
    OptionSpec("version", false, ShowVersion),
    OptionSpec("quiet", false, Quiet)]

  const ADVANCED_LOG_OPTIONS: seq<OptionSpec> := [
    OptionSpec("bypass-checks", false, BypassChecks),
    OptionSpec("logger-level", true, LoggerLevel),
    OptionSpec("no-log-timestamp", false, NoLogTimestamp)]
  const ADVANCED_THREAD_OPTIONS: seq<OptionSpec> := [
    OptionSpec("num-threads", true, NumThreads),
    OptionSpec("native-threads", false, NativeThreads),
    OptionSpec("buffer-size", true, BufferSize)]
  const ADVANCED_MEMORY_OPTIONS: seq<OptionSpec> := [
    OptionSpec("no-async-sock", false, NoAsyncSock),
    OptionSpec("no-mem-lock", false, NoMemLock),
    OptionSpec("no-cpu-prefetch", false, NoCpuPrefetch)]
  const ADVANCED_OPTIONS: seq<OptionSpec> :=
    ADVANCED_LOG_OPTIONS + ADVANCED_THREAD_OPTIONS + ADVANCED_MEMORY_OPTIONS

  /** Options that may refer to more than one header. */
  const MULTI_OPTIONS: seq<OptionSpec> := [
    OptionSpec("src-ip", true, SrcIp),
    OptionSpec("dest-ip", true, DestIp),
    OptionSpec("flags", true, IpFlags),
    OptionSpec("chksum", true, IpChecksum),
    OptionSpec("options", true, IpOptions)]

  const IPV4_TOS_OPTIONS: seq<OptionSpec> := [
    OptionSpec("ipv4", false, Ipv4Header),
    OptionSpec("ver", true, IpVer),
    OptionSpec("ihl", true, IpIhl),
    OptionSpec("tos", true, IpTos),
    OptionSpec("prec", true, IpPrec),
    OptionSpec("min-delay", false, IpMinDelay),
    OptionSpec("max-tput", false, IpMaxTput),
    OptionSpec("max-rely", false, IpMaxRely),
    OptionSpec("min-cost", false, IpMinCost),
    OptionSpec("mbz-one", false, IpMbzOne)]
  const IPV4_FIELD_OPTIONS: seq<OptionSpec> := [
    OptionSpec("dscp", true, IpDscp),
    OptionSpec("ecn", true, IpEcn),
    OptionSpec("len", true, IpLen),
    OptionSpec("ident", true, IpIdent),
    OptionSpec("evil-bit", false, IpEvilBit),
    OptionSpec("dont-frag", false, IpDontFrag),
    OptionSpec("more-frag", false, IpMoreFrag),
    OptionSpec("frag-ofs", true, IpFragOfs),
    OptionSpec("ttl", true, IpTtl),
    OptionSpec("proto", true, IpProto)]
  const IPV4_OPTIONS: seq<OptionSpec> := IPV4_TOS_OPTIONS + IPV4_FIELD_OPTIONS

  const IPV6_OPTIONS: seq<OptionSpec> := [
    OptionSpec("ipv6", false, Ipv6Header),
    OptionSpec("next-header", true, Ip6NextHeader),
    OptionSpec("hop-limit", true, Ip6HopLimit),
    OptionSpec("flow-label", true, Ip6FlowLabel)]

  /** The TCP header options are listed but not implemented: they carry
      OPTION_NONE. */
  const TCP_OPTIONS: seq<OptionSpec> := [
    OptionSpec("tcp", false, TcpHeader),
    OptionSpec("seq-num", true, NoOption),
    OptionSpec("ack-num", true, NoOption),
    OptionSpec("data-ofs", true, NoOption),
    OptionSpec("reserved", true, NoOption),
    OptionSpec("cwr", false, NoOption),
    OptionSpec("ece", false, NoOption),
    OptionSpec("urg", false, NoOption),
    OptionSpec("ack", false, NoOption),
    OptionSpec("psh", false, NoOption),
    OptionSpec("rst", false, NoOption),
    OptionSpec("syn", false, NoOption),
    OptionSpec("fin", false, NoOption),
    OptionSpec("window", true, NoOption),
    OptionSpec("urg-ptr", true, NoOption)]

  const OTHER_OPTIONS: seq<OptionSpec> := [
    OptionSpec("udp", false, UdpHeader),
    OptionSpec("icmp", false, IcmpHeader)]

  /** OPTIONS, in table order. */
  const OPTIONS: seq<OptionSpec> :=
    GENERAL_OPTIONS + ADVANCED_OPTIONS + MULTI_OPTIONS + IPV4_OPTIONS
    + IPV6_OPTIONS + TCP_OPTIONS + OTHER_OPTIONS

  // ===== handle_option =====

  const UINT_MAX: int := 0xFFFF_FFFF
  /** UIO_MAXIOV, the bound of --buffer-size. */
  const UIO_MAXIOV: int := 1024
  /** The largest value a 6-bit DSCP field holds: the bound --dscp is checked against. */
  const DSCP_MAX: int := 63

  /** The range a numeric option's value is checked against; None for the
      options that take no number. */
  function Bounds(k: OptionKind): Option<(int, int)>
  {
    match k
    case LoggerLevel => Some((LOG_NONE, LOG_DEBUG))
    case NumThreads => Some((0, UINT_MAX))
    case BufferSize => Some((0, UIO_MAXIOV))
    case IpVer => Some((0, 15))
    case IpIhl => Some((0, 15))
    case IpTos => Some((0, 255))
    case IpPrec => Some((0, 7))
    case IpDscp => Some((0, DSCP_MAX))
    case IpEcn => Some((0, 3))
    case IpLen => Some((0, 65535))
    case IpIdent => Some((0, 65535))
    case IpFlags => Some((0, 7))
    case IpFragOfs => Some((0, 8191))
    case IpTtl => Some((0, 255))
    case IpProto => Some((0, 255))
    case IpChecksum => Some((0, 65535))
    case _ => None
  }

  /** What a numeric option's value reads as: parse_text_or_int over the
      option's name table for --prec, --dscp, --ecn and --proto, validate_range
      for the others. */
  function ReadValue(k: OptionKind, v: string): (r: Option<int>)
    requires Bounds(k).Some?
  {
    var b := Bounds(k).value;
    if IsNamedNumeric(k) then TextOrInt(NameTable(k), v, true, b.0, b.1)
    else ValidateRange(v, b.0, b.1)
  }

  /** --prec, --dscp, --ecn and --proto: the options whose value may also be
      given by name. */
  predicate IsNamedNumeric(k: OptionKind)
  {
    k == IpPrec || k == IpDscp || k == IpEcn || k == IpProto
  }

  /** The names each of them accepts. */
  function NameTable(k: OptionKind): seq<NameKey>
    requires IsNamedNumeric(k)
  {
    if k == IpPrec then IP_TOS_PREC_CODES
    else if k == IpDscp then IP_DSCP_CODES
    else if k == IpEcn then IP_ECN_CODES
    else IP_PROTOCOLS
  }

  /** The number a reader hands back to handle_option: its value, or -1 after
      an error. */
  function Returned(r: Option<int>): int
  {
    if r.Some? then r.value else -1
  }

  /** The number of values the field a numeric option writes can hold: the
      C cast to the field's type keeps the value modulo this. log_level_t is an
      `int` and keeps every value the reader returns. */
  function Modulus(k: OptionKind): nat
    requires Bounds(k).Some? && k != LoggerLevel
  {
    match k
    case NumThreads => TWO_32
    case BufferSize => TWO_32
    case IpVer => 16
    case IpIhl => 16
    case IpTos => 256
    case IpPrec => 8
    case IpDscp => 64
    case IpEcn => 4
    case IpLen => 65536
    case IpIdent => 65536
    case IpFlags => 8
    case IpFragOfs => 8192
    case IpTtl => 256
    case IpProto => 256
    case IpChecksum => 65536
  }

  /** The assignment a numeric option makes: x, cast to the field's type, goes
      into the field; --len and --chksum also raise their override flag. */
  function Store(a: Args, k: OptionKind, x: int): Args
    requires Bounds(k).Some?
  {
    match k
    case LoggerLevel => a.(general := a.general.(loggerLevel := x))
    case NumThreads => a.(advanced := a.advanced.(numThreads := x % TWO_32))
    case BufferSize => a.(advanced := a.advanced.(bufferSize := x % TWO_32))
    case _ => a.(ipv4 := StoreHeader(a.ipv4, k, x), ipv4Misc := RaisedOverrides(a.ipv4Misc, k))
  }

  /** The header field a header option writes, cut to the field's width. */
  function StoreHeader(h: Ipv4.Header, k: OptionKind, x: int): Ipv4.Header
  {
    match k
    case IpVer => Ipv4.WithVersion(h, Cast4(x))
    case IpIhl => Ipv4.WithIhl(h, Cast4(x))
    case IpTos => Ipv4.WithTos(h, Cast8(x))
    case IpPrec => Ipv4.WithPrec(h, Cast3(x))
    case IpDscp => Ipv4.WithDscp(h, Cast6(x))
    case IpEcn => Ipv4.WithEcn(h, Cast2(x))
    case IpLen => Ipv4.WithLen(h, Cast16(x))
    case IpIdent => Ipv4.WithId(h, Cast16(x))
    case IpFlags => Ipv4.WithFlagBits(h, Cast3(x))
    case IpFragOfs => Ipv4.WithFragOfs(h, Cast13(x))
    case IpTtl => Ipv4.WithTtl(h, Cast8(x))
    case IpProto => Ipv4.WithProto(h, Cast8(x))
    case IpChecksum => Ipv4.WithChksum(h, Cast16(x))
    case _ => h
  }

  /** The field a numeric option writes, read back as a number. */
  function Field(a: Args, k: OptionKind): int
    requires Bounds(k).Some?
  {
    match k
    case LoggerLevel => a.general.loggerLevel
    case NumThreads => a.advanced.numThreads
    case BufferSize => a.advanced.bufferSize
    case IpVer => Ipv4.Version(a.ipv4) as int
    case IpIhl => Ipv4.Ihl(a.ipv4) as int
    case IpTos => Ipv4.Tos(a.ipv4) as int
    case IpPrec => Ipv4.Prec(a.ipv4) as int
    case IpDscp => Ipv4.Dscp6(a.ipv4) as int
    case IpEcn => Ipv4.EcnBits(a.ipv4) as int
    case IpLen => WordValue(Ipv4.Len(a.ipv4))
    case IpIdent => WordValue(Ipv4.Id(a.ipv4))
    case IpFlags => Ipv4.FlagBits(a.ipv4) as int
    case IpFragOfs => WordValue(Ipv4.FragOfs(a.ipv4) as bv16)
    case IpTtl => Ipv4.Ttl(a.ipv4) as int
    case IpProto => Ipv4.Proto(a.ipv4) as int
    case IpChecksum => WordValue(Ipv4.Chksum(a.ipv4))
  }

  /** What handle_option leaves behind: the new record and its error flag. */
  datatype Handled = Handled(args: Args, error: bool)

  /** A numeric option: its value is read, and the number read (-1 after an
      error) is stored in its field. */
  function NumericHandled(a: Args, k: OptionKind, v: string): Handled
    requires Bounds(k).Some?
  {
    var r := ReadValue(k, v);
    Handled(Store(a, k, Returned(r)), r.None?)
  }

  /** A header option whose value only validate_range reads. */
  function RangeHandled(a: Args, k: OptionKind, v: string): Handled
    requires Bounds(k).Some?
  {
    var r := ValidateRange(v, Bounds(k).value.0, Bounds(k).value.1);
    Handled(Store(a, k, Returned(r)), r.None?)
  }

  lemma RangeHandledIsNumeric(a: Args, k: OptionKind, v: string)
    requires Bounds(k).Some? && !IsNamedNumeric(k)
    ensures NumericHandled(a, k, v) == RangeHandled(a, k, v)
  {
  }

  /** --src-ip and --dest-ip: the value is read as a dotted quad. --src-ip
      marks the source as fixed by hand even when the value does not read. */
  function AddressHandled(a: Args, k: OptionKind, v: string): Handled
    requires k == SrcIp || k == DestIp
  {
    var p := InetPton(v);
    if k == SrcIp then
      var a' := a.(ipv4Misc := a.ipv4Misc.(overrideSource := true));
      if p.Some? then Handled(a'.(ipv4 := Ipv4.WithSaddr(a.ipv4, p.value)), false)
      else Handled(a', true)
    else
      if p.Some? then Handled(a.(ipv4 := Ipv4.WithDaddr(a.ipv4, p.value)), false)
      else Handled(a, true)
  }

  /** The options that ignore their value. */
  predicate IsSwitch(k: OptionKind)
  {
    Bounds(k).None? && k != SrcIp && k != DestIp
  }

  /** The switches fall in three groups: the run-time settings, the header
      bits, and the header selectors together with the options that do
      nothing yet. */
  predicate IsSettingSwitch(k: OptionKind)
  {
    match k
    case NoOption | Help | About | ShowVersion | Quiet | BypassChecks | NoLogTimestamp
      | NativeThreads | NoAsyncSock | NoMemLock | NoCpuPrefetch => true
    case _ => false
  }

  predicate IsBitSwitch(k: OptionKind)
  {
    match k
    case IpMinDelay | IpMaxTput | IpMaxRely | IpMinCost | IpMbzOne
      | IpEvilBit | IpDontFrag | IpMoreFrag => true
    case _ => false
  }

  predicate IsLayerSwitch(k: OptionKind)
  {
    match k
    case Ipv4Header | IpOptions | Ipv6Header | Ip6NextHeader | Ip6HopLimit | Ip6FlowLabel
      | TcpHeader | UdpHeader | IcmpHeader => true
    case _ => false
  }

  /** A run-time setting switch raises a flag of the record. OPTION_NONE is
      the one option that fails. */
  function SettingSwitched(a: Args, k: OptionKind): Handled
    requires IsSettingSwitch(k)
  {
    match k
    case NoOption => Handled(a, true)
    case Help => Handled(a.(general := a.general.(optInfo := true)), false)
    case About => Handled(a.(general := a.general.(optInfo := true)), false)
    case ShowVersion => Handled(a.(general := a.general.(optInfo := true)), false)
    case Quiet => Handled(a.(general := a.general.(loggerLevel := LOG_WARN)), false)
    case BypassChecks => Handled(a.(advanced := a.advanced.(bypassChecks := true)), false)
    case NoLogTimestamp => Handled(a.(advanced := a.advanced.(noLogTimestamp := true)), false)
    case NativeThreads => Handled(a.(advanced := a.advanced.(nativeThreads := true)), false)
    case NoAsyncSock => Handled(a.(advanced := a.advanced.(noAsyncSock := true)), false)
    case NoMemLock => Handled(a.(advanced := a.advanced.(noMemLock := true)), false)
    case NoCpuPrefetch => Handled(a.(advanced := a.advanced.(noCpuPrefetch := true)), false)
  }

  /** A header bit switch raises one bit of the IPv4 header. */
  function BitSwitched(a: Args, k: OptionKind): Handled
    requires IsBitSwitch(k)
  {
    match k
    case IpMinDelay => Handled(a.(ipv4 := Ipv4.WithTosBit(a.ipv4, Ipv4.LowDelay, true)), false)
    case IpMaxTput => Handled(a.(ipv4 := Ipv4.WithTosBit(a.ipv4, Ipv4.HighThroughput, true)), false)
    case IpMaxRely => Handled(a.(ipv4 := Ipv4.WithTosBit(a.ipv4, Ipv4.HighReliability, true)), false)
    case IpMinCost => Handled(a.(ipv4 := Ipv4.WithTosBit(a.ipv4, Ipv4.LowCost, true)), false)
    case IpMbzOne => Handled(a.(ipv4 := Ipv4.WithTosBit(a.ipv4, Ipv4.MustBeZero, true)), false)
    case IpEvilBit => Handled(a.(ipv4 := Ipv4.WithIpFlag(a.ipv4, Ipv4.Evil, true)), false)
    case IpDontFrag => Handled(a.(ipv4 := Ipv4.WithIpFlag(a.ipv4, Ipv4.DontFragment, true)), false)
    case IpMoreFrag => Handled(a.(ipv4 := Ipv4.WithIpFlag(a.ipv4, Ipv4.MoreFragments, true)), false)
  }

  /** A header selector sets the layer and protocol the next options
      describe; the remaining IPv4 and IPv6 options do nothing yet. */
  function LayerSwitched(a: Args, k: OptionKind): Handled
    requires IsLayerSwitch(k)
  {
    match k
    case Ipv4Header => Handled(a.(parser := ParserState(Layer3, L3Ipv4)), false)
    case IpOptions => Handled(a, false)
    case Ipv6Header => Handled(a.(parser := ParserState(Layer3, L3Ipv6)), false)
    case Ip6NextHeader => Handled(a, false)
    case Ip6HopLimit => Handled(a, false)
    case Ip6FlowLabel => Handled(a, false)
    case TcpHeader => Handled(a.(parser := ParserState(Layer4, L4Tcp)), false)
    case UdpHeader => Handled(a.(parser := ParserState(Layer4, L4Udp)), false)
    case IcmpHeader => Handled(a.(parser := ParserState(Layer4, L4Icmp)), false)
  }

  /** An option that ignores its value. */
  function SwitchHandled(a: Args, k: OptionKind): Handled
    requires IsSwitch(k)
  {
    if IsSettingSwitch(k) then SettingSwitched(a, k)
    else if IsBitSwitch(k) then BitSwitched(a, k)
    else LayerSwitched(a, k)
  }

  /** handle_option: the effect of one option with its value on the record. */
  function Handle(a: Args, k: OptionKind, v: string): Handled
  {
    if Bounds(k).Some? then NumericHandled(a, k, v)
    else if k == SrcIp || k == DestIp then AddressHandled(a, k, v)
    else SwitchHandled(a, k)
  }

  /** The numeric options fall in three groups: the run-time settings, the
      header fields of at most a byte, and the 16-bit header fields. */
  predicate IsRuntimeNumeric(k: OptionKind)
  {
    k == LoggerLevel || k == NumThreads || k == BufferSize
  }

  predicate IsWordNumeric(k: OptionKind)
  {
    k == IpLen || k == IpIdent || k == IpFragOfs || k == IpChecksum
  }

  predicate IsByteNumeric(k: OptionKind)
  {
    Bounds(k).Some? && !IsRuntimeNumeric(k) && !IsWordNumeric(k)
  }

  lemma RuntimeStoreThenField(a: Args, k: OptionKind, x: int)
    requires IsRuntimeNumeric(k)
    ensures k == LoggerLevel ==> Field(Store(a, k, x), k) == x
    ensures k != LoggerLevel ==> Field(Store(a, k, x), k) == x % Modulus(k)
  {
  }

  lemma ByteStoreThenField(a: Args, k: OptionKind, x: int)
    requires IsByteNumeric(k)
    ensures Field(Store(a, k, x), k) == x % Modulus(k)
  {
    match k {
      case IpVer =>
      case IpIhl =>
      case IpTos =>
      case IpPrec =>
      case IpDscp =>
      case IpEcn =>
      case IpFlags =>
      case IpTtl =>
      case IpProto =>
    }
  }

  lemma WordStoreThenField(a: Args, k: OptionKind, x: int)
    requires IsWordNumeric(k)
    ensures Field(Store(a, k, x), k) == x % Modulus(k)
  {
    match k {
      case IpLen => LenStoreThenField(a, x);
      case IpIdent => IdentStoreThenField(a, x);
      case IpChecksum => ChecksumStoreThenField(a, x);
      case IpFragOfs => FragOfsStoreThenField(a, x);
    }
  }

  lemma LenStoreThenField(a: Args, x: int)
    ensures Field(Store(a, IpLen, x), IpLen) == x % 65536
  {
    assert Store(a, IpLen, x).ipv4 == Ipv4.WithLen(a.ipv4, Cast16(x));
    Cast16Value(x);
  }

  lemma IdentStoreThenField(a: Args, x: int)
    ensures Field(Store(a, IpIdent, x), IpIdent) == x % 65536
  {
    assert Store(a, IpIdent, x).ipv4 == Ipv4.WithId(a.ipv4, Cast16(x));
    Cast16Value(x);
  }

  lemma ChecksumStoreThenField(a: Args, x: int)
    ensures Field(Store(a, IpChecksum, x), IpChecksum) == x % 65536
  {
    assert Store(a, IpChecksum, x).ipv4 == Ipv4.WithChksum(a.ipv4, Cast16(x));
    Cast16Value(x);
  }

  lemma FragOfsStoreThenField(a: Args, x: int)
    ensures Field(Store(a, IpFragOfs, x), IpFragOfs) == x % 8192
  {
    FragOfsStored(a, x);
    Cast13Value(x);
  }

  lemma FragOfsStored(a: Args, x: int)
    ensures Field(Store(a, IpFragOfs, x), IpFragOfs) == WordValue(Cast13(x) as bv16)
  {
    var c := Cast13(x);
    assert StoreHeader(a.ipv4, IpFragOfs, x) == Ipv4.WithFragOfs(a.ipv4, c);
    assert Store(a, IpFragOfs, x).ipv4 == StoreHeader(a.ipv4, IpFragOfs, x);
    FragOfsField(Store(a, IpFragOfs, x), a.ipv4, c);
  }

  lemma FragOfsField(b: Args, h: Ipv4.Header, o: bv13)
    requires b.ipv4 == Ipv4.WithFragOfs(h, o)
    ensures Field(b, IpFragOfs) == WordValue(o as bv16)
  {
  }

  /** Writing a number into a numeric option's field and reading it back gives
      the number cut to the field's width (unchanged for the log level). */
  lemma StoreThenField(a: Args, k: OptionKind, x: int)
    requires Bounds(k).Some?
    ensures k == LoggerLevel ==> Field(Store(a, k, x), k) == x
    ensures k != LoggerLevel ==> Field(Store(a, k, x), k) == x % Modulus(k)
  {
    if IsRuntimeNumeric(k) {
      RuntimeStoreThenField(a, k, x);
    } else if IsWordNumeric(k) {
      WordStoreThenField(a, k, x);
    } else {
      ByteStoreThenField(a, k, x);
    }
  }

  /** Every bound fits its field, so an accepted value is stored exactly. */
  lemma BoundsFitFields(k: OptionKind)
    requires Bounds(k).Some? && k != LoggerLevel
    ensures 0 <= Bounds(k).value.0 && Bounds(k).value.1 < Modulus(k)
  {
  }

  /** A number within an option's bounds is stored exactly. */
  lemma StoreWithinBounds(a: Args, k: OptionKind, x: int)
    requires Bounds(k).Some? && Bounds(k).value.0 <= x <= Bounds(k).value.1
    ensures Field(Store(a, k, x), k) == x
  {
    StoreThenField(a, k, x);
    if k != LoggerLevel {
      BoundsFitFields(k);
      SmallModulo(x, Modulus(k));
    }
  }

  /** A value that reads lies within the option's bounds. */
  lemma ReadValueWithin(k: OptionKind, v: string)
    requires Bounds(k).Some?
    ensures ReadValue(k, v).Some? ==> Bounds(k).value.0 <= ReadValue(k, v).value <= Bounds(k).value.1
  {
    if IsNamedNumeric(k) {
      TablesWithinBounds();
      TextOrIntWithin(NameTable(k), v, true, Bounds(k).value.0, Bounds(k).value.1);
    }
  }

  /** A numeric option fails exactly when its value does not read, and
      otherwise leaves the value it read in its field, within the bounds. */
  lemma NumericOptionStoresValue(a: Args, k: OptionKind, v: string)
    requires Bounds(k).Some?
    ensures Handle(a, k, v).error <==> ReadValue(k, v).None?
    ensures !Handle(a, k, v).error ==>
              && Field(Handle(a, k, v).args, k) == ReadValue(k, v).value
              && Bounds(k).value.0 <= Field(Handle(a, k, v).args, k) <= Bounds(k).value.1
  {
    var r := ReadValue(k, v);
    if r.Some? {
      ReadValueWithin(k, v);
      StoreWithinBounds(a, k, r.value);
    }
  }

  /** A rejected value still reaches the field: the -1 the reader returns, cut
      to the field's width, i.e. all ones (LOG_NONE for the log level). */
  lemma RejectedValueStoresAllOnes(a: Args, k: OptionKind, v: string)
    requires Bounds(k).Some? && Handle(a, k, v).error
    ensures k == LoggerLevel ==> Field(Handle(a, k, v).args, k) == LOG_NONE
    ensures k != LoggerLevel ==> Field(Handle(a, k, v).args, k) == Modulus(k) - 1
  {
    assert Handle(a, k, v).args == Store(a, k, -1);
    StoreThenField(a, k, -1);
    if k != LoggerLevel {
      MinusOneModulo(Modulus(k));
    }
  }

  lemma MinusOneModulo(m: int)
    requires m > 0
    ensures -1 % m == m - 1
  {
  }

  /** --help, --about and --version: the options that only print information. */
  predicate IsInfoOption(k: OptionKind)
  {
    k == Help || k == About || k == ShowVersion
  }

  /** The override flags as an option leaves them. */
  function RaisedOverrides(m: Ipv4Misc, k: OptionKind): Ipv4Misc
  {
    Ipv4Misc(m.overrideChecksum || k == IpChecksum, m.overrideSource || k == SrcIp,
             m.overrideLength || k == IpLen)
  }

  /** What an option does to the information flag and the override flags. */
  predicate KeepsFlags(a: Args, k: OptionKind, h: Handled)
  {
    && h.args.general.optInfo == (a.general.optInfo || IsInfoOption(k))
    && h.args.ipv4Misc == RaisedOverrides(a.ipv4Misc, k)
    && (IsInfoOption(k) ==> !h.error)
  }

  lemma StoreKeepsFlags(a: Args, k: OptionKind, x: int, error: bool)
    requires Bounds(k).Some?
    ensures KeepsFlags(a, k, Handled(Store(a, k, x), error))
  {
    if IsRuntimeNumeric(k) {
      RuntimeStoreKeepsFlags(a, k, x, error);
    } else if IsWordNumeric(k) {
      WordStoreKeepsFlags(a, k, x, error);
    } else {
      ByteStoreKeepsFlags(a, k, x, error);
    }
  }

  lemma RuntimeStoreKeepsFlags(a: Args, k: OptionKind, x: int, error: bool)
    requires IsRuntimeNumeric(k)
    ensures KeepsFlags(a, k, Handled(Store(a, k, x), error))
  {
  }

  lemma WordStoreKeepsFlags(a: Args, k: OptionKind, x: int, error: bool)
    requires IsWordNumeric(k)
    ensures KeepsFlags(a, k, Handled(Store(a, k, x), error))
  {
  }

  lemma ByteStoreKeepsFlags(a: Args, k: OptionKind, x: int, error: bool)
    requires IsByteNumeric(k)
    ensures KeepsFlags(a, k, Handled(Store(a, k, x), error))
  {
    match k {
      case IpVer =>
      case IpIhl =>
      case IpTos =>
      case IpPrec =>
      case IpDscp =>
      case IpEcn =>
      case IpFlags =>
      case IpTtl =>
      case IpProto =>
    }
  }

  lemma SettingKeepsFlags(a: Args, k: OptionKind)
    requires IsSettingSwitch(k)
    ensures KeepsFlags(a, k, SettingSwitched(a, k))
  {
    assert RaisedOverrides(a.ipv4Misc, k) == a.ipv4Misc;
    match k
    case NoOption | Quiet | BypassChecks | NoLogTimestamp | NativeThreads | NoAsyncSock | NoMemLock
      | NoCpuPrefetch =>
    case Help | About | ShowVersion =>
  }

  lemma BitKeepsFlags(a: Args, k: OptionKind)
    requires IsBitSwitch(k)
    ensures KeepsFlags(a, k, BitSwitched(a, k))
  {
  }

  lemma LayerKeepsFlags(a: Args, k: OptionKind)
    requires IsLayerSwitch(k)
    ensures KeepsFlags(a, k, LayerSwitched(a, k))
  {
  }

  lemma AddressKeepsFlags(a: Args, k: OptionKind, v: string)
    requires k == SrcIp || k == DestIp
    ensures KeepsFlags(a, k, AddressHandled(a, k, v))
  {
  }

  lemma HandleFlags(a: Args, k: OptionKind, v: string)
    ensures KeepsFlags(a, k, Handle(a, k, v))
  {
    if Bounds(k).Some? {
      var r := ReadValue(k, v);
      StoreKeepsFlags(a, k, Returned(r), r.None?);
    } else if k == SrcIp || k == DestIp {
      AddressKeepsFlags(a, k, v);
    } else if IsSettingSwitch(k) {
      SettingKeepsFlags(a, k);
    } else if IsBitSwitch(k) {
      BitKeepsFlags(a, k);
    } else {
      LayerKeepsFlags(a, k);
    }
  }

  /** The three override flags are raised by exactly one option each: --src-ip,
      --len and --chksum; no option lowers one. */
  lemma OverrideFlagsSetExactly(a: Args, k: OptionKind, v: string)
    ensures Handle(a, k, v).args.ipv4Misc.overrideSource == (a.ipv4Misc.overrideSource || k == SrcIp)
    ensures Handle(a, k, v).args.ipv4Misc.overrideLength == (a.ipv4Misc.overrideLength || k == IpLen)
    ensures Handle(a, k, v).args.ipv4Misc.overrideChecksum == (a.ipv4Misc.overrideChecksum || k == IpChecksum)
  {
    HandleFlags(a, k, v);
  }

  /** Only the information options ask main to stop after parsing. */
  lemma InfoOptions(a: Args, k: OptionKind, v: string)
    ensures Handle(a, k, v).args.general.optInfo == (a.general.optInfo || IsInfoOption(k))
    ensures IsInfoOption(k) ==> !Handle(a, k, v).error
  {
    HandleFlags(a, k, v);
  }

  /** An address option that reads is written to its header field; one that
      does not leaves the header alone and reports an error. */
  lemma AddressOptions(a: Args, v: string)
    ensures InetPton(v).Some? ==>
              && Ipv4.Saddr(Handle(a, SrcIp, v).args.ipv4) == InetPton(v).value
              && Ipv4.Daddr(Handle(a, DestIp, v).args.ipv4) == InetPton(v).value
              && !Handle(a, SrcIp, v).error && !Handle(a, DestIp, v).error
    ensures InetPton(v).None? ==>
              && Handle(a, SrcIp, v).error && Handle(a, DestIp, v).error
              && Handle(a, SrcIp, v).args.ipv4 == a.ipv4 && Handle(a, DestIp, v) == Handled(a, true)
  {
    HandleAddress(a, SrcIp, v);
    HandleAddress(a, DestIp, v);
  }

  lemma HandleAddress(a: Args, k: OptionKind, v: string)
    requires k == SrcIp || k == DestIp
    ensures Handle(a, k, v) == AddressHandled(a, k, v)
  {
  }

  // ----- two handlers as the source writes them -----

  /** The bound --dscp is checked against in the source. */
  const DSCP_MAX_AS_WRITTEN: int := 64

  /** --dscp as written: checked against [0, 64], then cut to the 6-bit field. */
  function HandleDscpAsWritten(a: Args, v: string): (h: Handled)
    ensures h.error <==> TextOrInt(IP_DSCP_CODES, v, true, 0, DSCP_MAX_AS_WRITTEN).None?
  {
    var r := TextOrInt(IP_DSCP_CODES, v, true, 0, DSCP_MAX_AS_WRITTEN);
    Handled(Store(a, IpDscp, Returned(r)), r.None?)
  }

  /** "--dscp 64" passes the check as written and stores DSCP 0; with the bound
      63 it is rejected. */
  lemma DscpSixtyFourWraps(a: Args)
    ensures !HandleDscpAsWritten(a, "64").error
    ensures Ipv4.Dscp6(HandleDscpAsWritten(a, "64").args.ipv4) == 0
    ensures Handle(a, IpDscp, "64").error
  {
    assert Decimal(64) == "64";
    TextOrIntDecimal(IP_DSCP_CODES, 64, true, 0, DSCP_MAX_AS_WRITTEN);
    StoreThenField(a, IpDscp, 64);
    assert ValidateRange("64", 0, DSCP_MAX) == None by {
      StrtolDecimal(64);
    }
  }

  /** --evil-bit, --dont-frag and --more-frag as written: through the expanded
      `flags` struct of the big-endian layout. */
  function HandleFlagAsWritten(a: Args, f: Ipv4.IpFlag): (h: Handled)
    ensures !h.error
    ensures Ipv4.FlagBits(h.args.ipv4) & Ipv4.ExpandedFlagMaskAsWritten(f) != 0
    ensures h.args == a.(ipv4 := h.args.ipv4)
  {
    Handled(a.(ipv4 := Ipv4.WithExpandedFlagAsWritten(a.ipv4, f, true)), false)
  }

  /** On a header without flags, "--evil-bit" as written raises More Fragments
      and leaves the evil bit clear; the handler above raises the evil bit. */
  lemma EvilBitOptionAsWritten(a: Args)
    requires Ipv4.FlagBits(a.ipv4) == 0
    ensures Ipv4.IpFlagSet(HandleFlagAsWritten(a, Ipv4.Evil).args.ipv4, Ipv4.MoreFragments)
    ensures !Ipv4.IpFlagSet(HandleFlagAsWritten(a, Ipv4.Evil).args.ipv4, Ipv4.Evil)
    ensures Ipv4.IpFlagSet(Handle(a, IpEvilBit, "").args.ipv4, Ipv4.Evil)
    ensures !Ipv4.IpFlagSet(Handle(a, IpEvilBit, "").args.ipv4, Ipv4.MoreFragments)
  {
    Ipv4.EvilBitAsWrittenSetsMoreFragments(a.ipv4);
  }

  /** The options on which the source and the handler above part ways. */
  predicate Diverges(k: OptionKind)
  {
    k == IpDscp || k == IpEvilBit || k == IpMoreFrag
  }

  /** handle_option as the source writes it: --dscp checked against [0, 64],
      the three flag switches through the expanded `flags` struct, and every
      other option as Handle has it. */
  function HandleAsWritten(a: Args, k: OptionKind, v: string): Handled
  {
    match k
    case IpDscp => HandleDscpAsWritten(a, v)
    case IpEvilBit => HandleFlagAsWritten(a, Ipv4.Evil)
    case IpDontFrag => HandleFlagAsWritten(a, Ipv4.DontFragment)
    case IpMoreFrag => HandleFlagAsWritten(a, Ipv4.MoreFragments)
    case _ => Handle(a, k, v)
  }

  /** The two handlers agree on every option but --dscp, --evil-bit and
      --more-frag: --dont-frag sets the same bit either way. */
  lemma HandleAsWrittenAgrees(a: Args, k: OptionKind, v: string)
    requires !Diverges(k)
    ensures HandleAsWritten(a, k, v) == Handle(a, k, v)
  {
    if k == IpDontFrag {
      assert Ipv4.ExpandedFlagMaskAsWritten(Ipv4.DontFragment) == Ipv4.IpFlagMask(Ipv4.DontFragment);
    }
  }

  /** ... and differ on each of those three: as written "--dscp 64" is
      accepted, ... */
  lemma DscpAsWrittenDiffers(a: Args)
    ensures !HandleAsWritten(a, IpDscp, "64").error && Handle(a, IpDscp, "64").error
  {
    assert HandleAsWritten(a, IpDscp, "64") == HandleDscpAsWritten(a, "64");
    DscpSixtyFourWraps(a);
  }

  /** ... and, on a header without flags, "--evil-bit" raises More Fragments ... */
  lemma EvilBitAsWrittenDiffers(a: Args)
    requires Ipv4.FlagBits(a.ipv4) == 0
    ensures Ipv4.IpFlagSet(HandleAsWritten(a, IpEvilBit, "").args.ipv4, Ipv4.MoreFragments)
    ensures !Ipv4.IpFlagSet(Handle(a, IpEvilBit, "").args.ipv4, Ipv4.MoreFragments)
  {
    assert HandleAsWritten(a, IpEvilBit, "") == HandleFlagAsWritten(a, Ipv4.Evil);
    EvilBitOptionAsWritten(a);
  }

  /** ... and "--more-frag" the evil bit. */
  lemma MoreFragAsWrittenDiffers(a: Args)
    requires Ipv4.FlagBits(a.ipv4) == 0
    ensures Ipv4.IpFlagSet(HandleAsWritten(a, IpMoreFrag, "").args.ipv4, Ipv4.Evil)
    ensures !Ipv4.IpFlagSet(Handle(a, IpMoreFrag, "").args.ipv4, Ipv4.Evil)
  {
    assert HandleAsWritten(a, IpMoreFrag, "").args.ipv4
        == Ipv4.WithExpandedFlagAsWritten(a.ipv4, Ipv4.MoreFragments, true);
    assert Handle(a, IpMoreFrag, "").args.ipv4 == Ipv4.WithIpFlag(a.ipv4, Ipv4.MoreFragments, true);
    Ipv4.MoreFragmentsAsWrittenSetsEvil(a.ipv4);
  }

  // ----- the method -----

  /** handle_option: assigns the fields the option names, in place, and says
      whether the value was rejected. */
  method HandleOption(opt: OptionSpec, value: string, args: ProgramArgs) returns (error: bool)
    modifies args
    ensures Handled(args.Snapshot(), error) == Handle(old(args.Snapshot()), opt.kind, value)
  {
    var k := opt.kind;
    if Bounds(k).Some? {
      error := HandleNumericOption(k, value, args);
    } else if k == SrcIp || k == DestIp {
      error := HandleAddressOption(k, value, args);
    } else {
      HandleSwitchOption(k, args);
      error := k == NoOption;
    }
  }

  method HandleSwitchOption(k: OptionKind, args: ProgramArgs)
    requires IsSwitch(k)
    modifies args
    ensures Handled(args.Snapshot(), k == NoOption) == SwitchHandled(old(args.Snapshot()), k)
  {
    if IsSettingSwitch(k) {
      HandleSettingSwitch(k, args);
    } else if IsBitSwitch(k) {
      HandleBitSwitch(k, args);
    } else {
      HandleLayerSwitch(k, args);
    }
  }

  method HandleSettingSwitch(k: OptionKind, args: ProgramArgs)
    requires IsSettingSwitch(k)
    modifies args
    ensures Handled(args.Snapshot(), k == NoOption) == SettingSwitched(old(args.Snapshot()), k)
  {
    match k {
      case NoOption =>
      case Help => args.general := args.general.(optInfo := true);
      case About => args.general := args.general.(optInfo := true);
      case ShowVersion => args.general := args.general.(optInfo := true);
      case Quiet => args.general := args.general.(loggerLevel := LOG_WARN);
      case BypassChecks => args.advanced := args.advanced.(bypassChecks := true);
      case NoLogTimestamp => args.advanced := args.advanced.(noLogTimestamp := true);
      case NativeThreads => args.advanced := args.advanced.(nativeThreads := true);
      case NoAsyncSock => args.advanced := args.advanced.(noAsyncSock := true);
      case NoMemLock => args.advanced := args.advanced.(noMemLock := true);
      case NoCpuPrefetch => args.advanced := args.advanced.(noCpuPrefetch := true);
    }
  }

  method HandleBitSwitch(k: OptionKind, args: ProgramArgs)
    requires IsBitSwitch(k)
    modifies args
    ensures Handled(args.Snapshot(), false) == BitSwitched(old(args.Snapshot()), k)
  {
    match k {
      case IpMinDelay => args.ipv4 := Ipv4.WithTosBit(args.ipv4, Ipv4.LowDelay, true);
      case IpMaxTput => args.ipv4 := Ipv4.WithTosBit(args.ipv4, Ipv4.HighThroughput, true);
      case IpMaxRely => args.ipv4 := Ipv4.WithTosBit(args.ipv4, Ipv4.HighReliability, true);
      case IpMinCost => args.ipv4 := Ipv4.WithTosBit(args.ipv4, Ipv4.LowCost, true);
      case IpMbzOne => args.ipv4 := Ipv4.WithTosBit(args.ipv4, Ipv4.MustBeZero, true);
      case IpEvilBit => args.ipv4 := Ipv4.WithIpFlag(args.ipv4, Ipv4.Evil, true);
      case IpDontFrag => args.ipv4 := Ipv4.WithIpFlag(args.ipv4, Ipv4.DontFragment, true);
      case IpMoreFrag => args.ipv4 := Ipv4.WithIpFlag(args.ipv4, Ipv4.MoreFragments, true);
    }
  }

  method HandleLayerSwitch(k: OptionKind, args: ProgramArgs)
    requires IsLayerSwitch(k)
    modifies args
    ensures Handled(args.Snapshot(), false) == LayerSwitched(old(args.Snapshot()), k)
  {
    match k {
      case Ipv4Header => args.parser := ParserState(Layer3, L3Ipv4);
      case IpOptions =>
      case Ipv6Header => args.parser := ParserState(Layer3, L3Ipv6);
      case Ip6NextHeader =>
      case Ip6HopLimit =>
      case Ip6FlowLabel =>
      case TcpHeader => args.parser := ParserState(Layer4, L4Tcp);
      case UdpHeader => args.parser := ParserState(Layer4, L4Udp);
      case IcmpHeader => args.parser := ParserState(Layer4, L4Icmp);
    }
  }

  method HandleAddressOption(k: OptionKind, value: string, args: ProgramArgs) returns (error: bool)
    requires k == SrcIp || k == DestIp
    modifies args
    ensures Handled(args.Snapshot(), error) == AddressHandled(old(args.Snapshot()), k, value)
  {
    error := false;
    if k == SrcIp {
      args.ipv4Misc := args.ipv4Misc.(overrideSource := true);
      var p := InetPton(value);
      if p.None? {
        error := true;
      } else {
        args.ipv4 := Ipv4.WithSaddr(args.ipv4, p.value);
      }
    } else {
      var p := InetPton(value);
      if p.None? {
        error := true;
      } else {
        args.ipv4 := Ipv4.WithDaddr(args.ipv4, p.value);
      }
    }
  }

  method HandleNumericOption(k: OptionKind, value: string, args: ProgramArgs) returns (error: bool)
    requires Bounds(k).Some?
    modifies args
    ensures Handled(args.Snapshot(), error) == NumericHandled(old(args.Snapshot()), k, value)
  {
    if IsRuntimeNumeric(k) {
      error := HandleRuntimeOption(k, value, args);
    } else if IsNamedNumeric(k) {
      error := HandleNamedOption(k, value, args);
    } else {
      RangeHandledIsNumeric(args.Snapshot(), k, value);
      error := HandleRangeOption(k, value, args);
    }
  }

  method HandleRuntimeOption(k: OptionKind, value: string, args: ProgramArgs) returns (error: bool)
    requires IsRuntimeNumeric(k)
    modifies args
    ensures Handled(args.Snapshot(), error) == NumericHandled(old(args.Snapshot()), k, value)
  {
    match k {
      case LoggerLevel =>
        var r := ValidateRange(value, LOG_NONE, LOG_DEBUG);
        error := r.None?;
        args.general := args.general.(loggerLevel := Returned(r));
      case NumThreads =>
        var r := ValidateRange(value, 0, UINT_MAX);
        error := r.None?;
        args.advanced := args.advanced.(numThreads := Returned(r) % TWO_32);
      case BufferSize =>
        var r := ValidateRange(value, 0, UIO_MAXIOV);
        error := r.None?;
        args.advanced := args.advanced.(bufferSize := Returned(r) % TWO_32);
    }
  }

  /** The header options read by parse_text_or_int over their name table. */
  method HandleNamedOption(k: OptionKind, value: string, args: ProgramArgs) returns (error: bool)
    requires IsNamedNumeric(k)
    modifies args
    ensures Handled(args.Snapshot(), error) == NumericHandled(old(args.Snapshot()), k, value)
  {
    var b := Bounds(k).value;
    var x;
    x, error := ParseTextOrInt(NameTable(k), value, true, b.0, b.1);
    assert x == Returned(ReadValue(k, value));
    match k {
      case IpPrec => StorePrec(x, args);
      case IpDscp => StoreDscp(x, args);
      case IpEcn => StoreEcn(x, args);
      case IpProto => StoreProto(x, args);
    }
  }

  method StorePrec(x: int, args: ProgramArgs)
    modifies args
    ensures args.Snapshot() == Store(old(args.Snapshot()), IpPrec, x)
  {
    args.ipv4 := Ipv4.WithPrec(args.ipv4, Cast3(x));
  }

  method StoreDscp(x: int, args: ProgramArgs)
    modifies args
    ensures args.Snapshot() == Store(old(args.Snapshot()), IpDscp, x)
  {
    args.ipv4 := Ipv4.WithDscp(args.ipv4, Cast6(x));
  }

  method StoreEcn(x: int, args: ProgramArgs)
    modifies args
    ensures args.Snapshot() == Store(old(args.Snapshot()), IpEcn, x)
  {
    args.ipv4 := Ipv4.WithEcn(args.ipv4, Cast2(x));
  }

  method StoreProto(x: int, args: ProgramArgs)
    modifies args
    ensures args.Snapshot() == Store(old(args.Snapshot()), IpProto, x)
  {
    args.ipv4 := Ipv4.WithProto(args.ipv4, Cast8(x));
  }

  /** The header options read by validate_range; --len and --chksum also
      mark their field as fixed by hand. */
  method HandleRangeOption(k: OptionKind, value: string, args: ProgramArgs) returns (error: bool)
    requires Bounds(k).Some? && !IsRuntimeNumeric(k) && !IsNamedNumeric(k)
    modifies args
    ensures Handled(args.Snapshot(), error) == RangeHandled(old(args.Snapshot()), k, value)
  {
    var b := Bounds(k).value;
    var r := ValidateRange(value, b.0, b.1);
    StoreRange(k, Returned(r), args);
    error := r.None?;
  }

  /** The store into the header field of a range-checked header option. */
  method StoreRange(k: OptionKind, x: int, args: ProgramArgs)
    requires Bounds(k).Some? && !IsRuntimeNumeric(k) && !IsNamedNumeric(k)
    modifies args
    ensures args.Snapshot() == Store(old(args.Snapshot()), k, x)
  {
    match k {
      case IpVer => StoreVersion(x, args);
      case IpIhl => StoreIhl(x, args);
      case IpTos => StoreTos(x, args);
      case IpLen => StoreLen(x, args);
      case IpIdent => StoreIdent(x, args);
      case IpFlags => StoreFlags(x, args);
      case IpFragOfs => StoreFragOfs(x, args);
      case IpTtl => StoreTtl(x, args);
      case IpChecksum => StoreChecksum(x, args);
    }
  }

  method StoreVersion(x: int, args: ProgramArgs)
    modifies args
    ensures args.Snapshot() == Store(old(args.Snapshot()), IpVer, x)
  {
    args.ipv4 := Ipv4.WithVersion(args.ipv4, Cast4(x));
  }

  method StoreIhl(x: int, args: ProgramArgs)
    modifies args
    ensures args.Snapshot() == Store(old(args.Snapshot()), IpIhl, x)
  {
    args.ipv4 := Ipv4.WithIhl(args.ipv4, Cast4(x));
  }

  method StoreTos(x: int, args: ProgramArgs)
    modifies args
    ensures args.Snapshot() == Store(old(args.Snapshot()), IpTos, x)
  {
    args.ipv4 := Ipv4.WithTos(args.ipv4, Cast8(x));
  }

  method StoreLen(x: int, args: ProgramArgs)
    modifies args
    ensures args.Snapshot() == Store(old(args.Snapshot()), IpLen, x)
  {
    args.ipv4Misc := args.ipv4Misc.(overrideLength := true);
    args.ipv4 := Ipv4.WithLen(args.ipv4, Cast16(x));
  }

  method StoreIdent(x: int, args: ProgramArgs)
    modifies args
    ensures args.Snapshot() == Store(old(args.Snapshot()), IpIdent, x)
  {
    args.ipv4 := Ipv4.WithId(args.ipv4, Cast16(x));
  }

  method StoreFlags(x: int, args: ProgramArgs)
    modifies args
    ensures args.Snapshot() == Store(old(args.Snapshot()), IpFlags, x)
  {
    args.ipv4 := Ipv4.WithFlagBits(args.ipv4, Cast3(x));
  }

  method StoreFragOfs(x: int, args: ProgramArgs)
    modifies args
    ensures args.Snapshot() == Store(old(args.Snapshot()), IpFragOfs, x)
  {
    args.ipv4 := Ipv4.WithFragOfs(args.ipv4, Cast13(x));
  }

  method StoreTtl(x: int, args: ProgramArgs)
    modifies args
    ensures args.Snapshot() == Store(old(args.Snapshot()), IpTtl, x)
  {
    args.ipv4 := Ipv4.WithTtl(args.ipv4, Cast8(x));
  }

  method StoreChecksum(x: int, args: ProgramArgs)
    modifies args
    ensures args.Snapshot() == Store(old(args.Snapshot()), IpChecksum, x)
  {
    args.ipv4Misc := args.ipv4Misc.(overrideChecksum := true);
    args.ipv4 := Ipv4.WithChksum(args.ipv4, Cast16(x));
  }

  // ===== parse_args =====

  /** An argument is read as an option when it starts with '-' or '/'. */
  predicate IsOptionArg(arg: string)
  {
    |arg| > 0 && (arg[0] == '-' || arg[0] == '/')
  }

  /** The option text after its one or two leading characters. */
  function OptName(arg: string): (n: string)
    requires |arg| > 0
    ensures 1 <= |arg| - |n| <= 2 && n == arg[|arg| - |n|..]
  {
    if |arg| > 1 && arg[1] == '-' then arg[2..] else arg[1..]
  }

  /** The option name a command-line option matches: the name is a prefix
      that ends the text or is followed by '='. */
  predicate Matches(optName: string, name: string)
  {
    && |name| <= |optName|
    && optName[..|name|] == name
    && (|optName| == |name| || optName[|name|] == '=')
  }

  /** The text before the first '=', the whole text without one. */
  function NamePart(optName: string): (p: string)
    ensures '=' !in p && p <= optName
  {
    if '=' in optName then optName[..IndexOf(optName, '=')] else optName
  }

  /** Matching is comparing the text before the first '=' with the name. */
  lemma MatchesIsNamePart(optName: string, name: string)
    requires '=' !in name
    ensures Matches(optName, name) <==> NamePart(optName) == name
  {
    if Matches(optName, name) {
      if |optName| == |name| {
        assert optName == name;
      } else {
        assert optName[..|name|] == name;
        assert IndexOf(optName, '=') == |name|;
      }
    }
    if NamePart(optName) == name && '=' in optName {
      assert optName[|name|] == '=';
    }
  }

  /** The first entry of an option table, from j on, the text matches. */
  function FindFrom(table: seq<OptionSpec>, optName: string, j: nat): (r: Option<nat>)
    requires j <= |table|
    ensures r.Some? ==> j <= r.value < |table| && Matches(optName, table[r.value].name)
    ensures r.Some? ==> forall i :: j <= i < r.value ==> !Matches(optName, table[i].name)
    ensures r.None? ==> forall i :: j <= i < |table| ==> !Matches(optName, table[i].name)
    decreases |table| - j
  {
    if j == |table| then None
    else if Matches(optName, table[j].name) then Some(j)
    else FindFrom(table, optName, j + 1)
  }

  function FindOption(optName: string): Option<nat>
  {
    FindFrom(OPTIONS, optName, 0)
  }

  /** The inner loop of parse_args: the index of the first entry of the
      table the text matches, or -1. */
  method LookupOption(table: seq<OptionSpec>, optName: string) returns (j: int)
    ensures j < 0 <==> FindFrom(table, optName, 0).None?
    ensures j >= 0 ==> FindFrom(table, optName, 0) == Some(j)
  {
    j := 0;
    while j < |table|
      invariant 0 <= j <= |table|
      invariant forall i :: 0 <= i < j ==> !Matches(optName, table[i].name)
    {
      var name := table[j].name;
      if |name| <= |optName| && optName[..|name|] == name
         && (|optName| == |name| || optName[|name|] == '=')
      {
        return;
      }
      j := j + 1;
    }
    j := -1;
  }

  /** The value an option takes, and the index of the last argument it used:
      the text after '=' if there is one, else the next argument unless that
      reads as an option. */
  function TakeValue(argv: seq<string>, i: nat, optName: string): (r: (Option<string>, nat))
    requires i < |argv|
    ensures r.1 == i || (r.1 == i + 1 && r.1 < |argv| && r.0 == Some(argv[r.1]))
    ensures r.0.None? ==> r.1 == i
  {
    if '=' in optName then (Some(optName[IndexOf(optName, '=') + 1..]), i)
    else if i + 1 < |argv| && !IsOptionArg(argv[i + 1]) then (Some(argv[i + 1]), i + 1)
    else (None, i)
  }

  /** A value an option with an argument accepts: present, not empty and
      not starting with a blank. */
  predicate Usable(v: Option<string>)
  {
    v.Some? && |v.value| > 0 && v.value[0] != ' '
  }

  /** The record after parse_args and what it returns. */
  datatype Parsed = Parsed(args: Args, status: int)

  /** What parse_args does with argument i: stop with a status, or hand an
      option and its value to handle_option and go on at argument next. */
  datatype Step = Stop(status: int) | Take(opt: OptionSpec, value: string, next: nat)

  /** The step for argument i: an argument that is not an option, an option
      not in the table, and an option that needs a value and has no usable
      one stop parsing with 1. A missing value reaches handle_option as "". */
  function NextStep(table: seq<OptionSpec>, argv: seq<string>, i: nat): (s: Step)
    requires 1 <= i < |argv|
    ensures s.Take? ==> i < s.next <= |argv|
    ensures s.Stop? ==> s.status == 1
  {
    if !IsOptionArg(argv[i]) then Stop(1)
    else
      var optName := OptName(argv[i]);
      var j := FindFrom(table, optName, 0);
      if j.None? then Stop(1)
      else
        var t := TakeValue(argv, i, optName);
        var opt := table[j.value];
        if opt.hasArg && !Usable(t.0) then Stop(1)
        else Take(opt, if t.0.Some? then t.0.value else "", t.1 + 1)
  }

  /** What handle_option does with an option and its value. */
  type Handler = (Args, OptionKind, string) -> Handled

  /** parse_args from argument i on, over an option table and a handler. */
  function ParseFrom(table: seq<OptionSpec>, handle: Handler, a: Args, argv: seq<string>, i: nat): Parsed
    requires 1 <= i <= |argv|
    decreases |argv| - i
  {
    if i == |argv| then Parsed(a, 0)
    else
      match NextStep(table, argv, i)
      case Stop(status) => Parsed(a, status)
      case Take(opt, value, next) =>
        var h := handle(a, opt.kind, value);
        if h.error then Parsed(h.args, 1) else ParseFrom(table, handle, h.args, argv, next)
  }

  /** parse_args over a handler: argv[0] names the executable; without any
      further argument the help text is shown and 1 returned. */
  function ParseWith(handle: Handler, a: Args, argv: seq<string>): Parsed
    requires |argv| >= 1
  {
    var a' := a.(executableName := argv[0]);
    if |argv| == 1 then Parsed(a', 1) else ParseFrom(OPTIONS, handle, a', argv, 1)
  }

  /** parse_args with the corrected handler. */
  function Parse(a: Args, argv: seq<string>): Parsed
    requires |argv| >= 1
  {
    ParseWith(Handle, a, argv)
  }

  /** parse_args as the source writes it. */
  function ParseAsWritten(a: Args, argv: seq<string>): Parsed
    requires |argv| >= 1
  {
    ParseWith(HandleAsWritten, a, argv)
  }

  /** A parse whose options avoid --dscp, --evil-bit and --more-frag ends the
      same way, with the same record, as written and corrected. */
  lemma {:induction false} ParseFromAgreesAsWritten(table: seq<OptionSpec>, a: Args, argv: seq<string>, i: nat)
    requires 1 <= i <= |argv|
    requires forall k :: i <= k < |argv| && NextStep(table, argv, k).Take? ==> !Diverges(NextStep(table, argv, k).opt.kind)
    ensures ParseFrom(table, HandleAsWritten, a, argv, i) == ParseFrom(table, Handle, a, argv, i)
    decreases |argv| - i
  {
    if i < |argv| && NextStep(table, argv, i).Take? {
      var s := NextStep(table, argv, i);
      HandleAsWrittenAgrees(a, s.opt.kind, s.value);
      var h := Handle(a, s.opt.kind, s.value);
      if !h.error {
        ParseFromAgreesAsWritten(table, h.args, argv, s.next);
      }
    }
  }

  lemma ParseAgreesAsWritten(a: Args, argv: seq<string>)
    requires |argv| >= 1
    requires forall k :: 1 <= k < |argv| && NextStep(OPTIONS, argv, k).Take? ==> !Diverges(NextStep(OPTIONS, argv, k).opt.kind)
    ensures ParseAsWritten(a, argv) == Parse(a, argv)
  {
    if |argv| > 1 {
      ParseFromAgreesAsWritten(OPTIONS, a.(executableName := argv[0]), argv, 1);
    }
  }

  /** parse_args, with the C loop over argv. */
  method ParseArgs(argv: seq<string>, args: ProgramArgs) returns (status: int)
    requires |argv| >= 1
    modifies args
    ensures Parsed(args.Snapshot(), status) == Parse(old(args.Snapshot()), argv)
  {
    args.executableName := argv[0];
    if |argv| == 1 {
      return 1;
    }
    status := ParseOptions(OPTIONS, argv, args);
  }

  /** The loop of parse_args over argv[1..], for an option table. */
  method ParseOptions(table: seq<OptionSpec>, argv: seq<string>, args: ProgramArgs) returns (status: int)
    requires |argv| >= 1
    modifies args
    ensures Parsed(args.Snapshot(), status) == ParseFrom(table, Handle, old(args.Snapshot()), argv, 1)
  {
    var i := 1;
    while i < |argv|
      invariant 1 <= i <= |argv|
      invariant ParseFrom(table, Handle, args.Snapshot(), argv, i) == ParseFrom(table, Handle, old(args.Snapshot()), argv, 1)
      decreases |argv| - i
    {
      var stop, next;
      stop, status, next := ParseOneOption(table, argv, i, args);
      if stop {
        return;
      }
      i := next;
    }
    return 0;
  }

  /** One turn of the loop: argument i is handled, or parsing stops. */
  method ParseOneOption(table: seq<OptionSpec>, argv: seq<string>, i: nat, args: ProgramArgs)
    returns (stop: bool, status: int, next: nat)
    requires 1 <= i < |argv|
    modifies args
    ensures stop ==> Parsed(args.Snapshot(), status) == ParseFrom(table, Handle, old(args.Snapshot()), argv, i)
    ensures !stop ==> i < next <= |argv|
    ensures !stop ==> ParseFrom(table, Handle, args.Snapshot(), argv, next) == ParseFrom(table, Handle, old(args.Snapshot()), argv, i)
  {
    var found, opt, value;
    found, opt, value, next := ScanOption(table, argv, i);
    if !found {
      return true, 1, i;
    }
    var error := HandleOption(opt, value, args);
    stop, status := error, 1;
  }

  /** Argument i read as an option: its table entry, the value handle_option
      receives and the argument after the last one it uses. */
  method ScanOption(table: seq<OptionSpec>, argv: seq<string>, i: nat)
    returns (found: bool, opt: OptionSpec, value: string, next: nat)
    requires 1 <= i < |argv|
    ensures found <==> NextStep(table, argv, i).Take?
    ensures found ==> NextStep(table, argv, i) == Take(opt, value, next)
  {
    found, opt, value, next := false, OptionSpec("", false, NoOption), "", i;
    var arg := argv[i];
    if !IsOptionArg(arg) {
      return;
    }
    var optName := OptName(arg);
    var j := LookupOption(table, optName);
    if j < 0 {
      return;
    }
    var v: Option<string> := None;
    var last := i;
    if '=' in optName {
      v := Some(optName[IndexOf(optName, '=') + 1..]);
    } else if i + 1 < |argv| && !IsOptionArg(argv[i + 1]) {
      last := i + 1;
      v := Some(argv[last]);
    }
    if table[j].hasArg && (v.None? || |v.value| == 0 || v.value[0] == ' ') {
      return;
    }
    found, opt, next := true, table[j], last + 1;
    value := if v.Some? then v.value else "";
  }

  // ----- what parse_args promises -----

  predicate NoEqualsInNames(table: seq<OptionSpec>)
  {
    forall i :: 0 <= i < |table| ==> '=' !in table[i].name
  }

  lemma NoEqualsInConcat(x: seq<OptionSpec>, y: seq<OptionSpec>)
    requires NoEqualsInNames(x) && NoEqualsInNames(y)
    ensures NoEqualsInNames(x + y)
  {
    forall i | 0 <= i < |x + y|
      ensures '=' !in (x + y)[i].name
    {
      if i >= |x| {
        assert (x + y)[i] == y[i - |x|];
      }
    }
  }

  lemma GeneralNoEquals() ensures NoEqualsInNames(GENERAL_OPTIONS) {}
  lemma AdvancedLogNoEquals() ensures NoEqualsInNames(ADVANCED_LOG_OPTIONS) {}
  lemma AdvancedThreadNoEquals() ensures NoEqualsInNames(ADVANCED_THREAD_OPTIONS) {}
  lemma AdvancedMemoryNoEquals() ensures NoEqualsInNames(ADVANCED_MEMORY_OPTIONS) {}

  lemma AdvancedNoEquals()
    ensures NoEqualsInNames(ADVANCED_OPTIONS)
  {
    AdvancedLogNoEquals();
    AdvancedThreadNoEquals();
    AdvancedMemoryNoEquals();
    NoEqualsInConcat(ADVANCED_LOG_OPTIONS, ADVANCED_THREAD_OPTIONS);
    NoEqualsInConcat(ADVANCED_LOG_OPTIONS + ADVANCED_THREAD_OPTIONS, ADVANCED_MEMORY_OPTIONS);
  }

  lemma MultiNoEquals() ensures NoEqualsInNames(MULTI_OPTIONS) {}
  lemma Ipv4TosNoEquals() ensures NoEqualsInNames(IPV4_TOS_OPTIONS) {}
  lemma Ipv4FieldNoEquals() ensures NoEqualsInNames(IPV4_FIELD_OPTIONS) {}

  lemma Ipv4NoEquals()
    ensures NoEqualsInNames(IPV4_OPTIONS)
  {
    Ipv4TosNoEquals();
    Ipv4FieldNoEquals();
    NoEqualsInConcat(IPV4_TOS_OPTIONS, IPV4_FIELD_OPTIONS);
  }

  lemma Ipv6NoEquals() ensures NoEqualsInNames(IPV6_OPTIONS) {}
  lemma TcpNoEquals() ensures NoEqualsInNames(TCP_OPTIONS) {}
  lemma OtherNoEquals() ensures NoEqualsInNames(OTHER_OPTIONS) {}

  /** No option name holds an '=', so the '=' always ends the name. */
  lemma OptionNamesHaveNoEquals()
    ensures NoEqualsInNames(OPTIONS)
  {
    GeneralNoEquals();
    AdvancedNoEquals();
    MultiNoEquals();
    Ipv4NoEquals();
    Ipv6NoEquals();
    TcpNoEquals();
    OtherNoEquals();
    var t := GENERAL_OPTIONS;
    NoEqualsInConcat(t, ADVANCED_OPTIONS);
    t := t + ADVANCED_OPTIONS;
    NoEqualsInConcat(t, MULTI_OPTIONS);
    t := t + MULTI_OPTIONS;
    NoEqualsInConcat(t, IPV4_OPTIONS);
    t := t + IPV4_OPTIONS;
    NoEqualsInConcat(t, IPV6_OPTIONS);
    t := t + IPV6_OPTIONS;
    NoEqualsInConcat(t, TCP_OPTIONS);
    t := t + TCP_OPTIONS;
    NoEqualsInConcat(t, OTHER_OPTIONS);
    t := t + OTHER_OPTIONS;
    assert t == OPTIONS;
  }

  /** An option is found exactly when the text before its first '=' is the
      name of a table entry, and then that entry is the first with this name. */
  lemma {:induction false} FindFromByName(table: seq<OptionSpec>, optName: string, j: nat)
    requires j <= |table| && NoEqualsInNames(table)
    ensures FindFrom(table, optName, j).Some? <==>
              exists i :: j <= i < |table| && table[i].name == NamePart(optName)
    ensures FindFrom(table, optName, j).Some? ==>
              && table[FindFrom(table, optName, j).value].name == NamePart(optName)
              && forall i :: j <= i < FindFrom(table, optName, j).value ==> table[i].name != NamePart(optName)
    decreases |table| - j
  {
    if j < |table| {
      MatchesIsNamePart(optName, table[j].name);
      FindFromByName(table, optName, j + 1);
      if table[j].name != NamePart(optName) && FindFrom(table, optName, j + 1).Some? {
        var r := FindFrom(table, optName, j + 1).value;
        MatchesIsNamePart(optName, table[r].name);
      }
    }
  }

  /** parse_args returns 0 or 1. */
  lemma {:induction false} ParseFromStatus(table: seq<OptionSpec>, handle: Handler, a: Args, argv: seq<string>, i: nat)
    requires 1 <= i <= |argv|
    ensures ParseFrom(table, handle, a, argv, i).status in {0, 1}
    decreases |argv| - i
  {
    if i < |argv| && NextStep(table, argv, i).Take? {
      var s := NextStep(table, argv, i);
      var h := handle(a, s.opt.kind, s.value);
      if !h.error {
        ParseFromStatus(table, handle, h.args, argv, s.next);
      }
    }
  }

  lemma ParseStatus(a: Args, argv: seq<string>)
    requires |argv| >= 1
    ensures Parse(a, argv).status in {0, 1}
  {
    if |argv| > 1 {
      ParseFromStatus(OPTIONS, Handle, a.(executableName := argv[0]), argv, 1);
    }
  }

  lemma ParseDash(a: Args)
    ensures Parse(a, ["blitzping", "--"]).status == 1
    ensures Parse(a, ["blitzping", "-"]).status == 1
  {
  }

  /** --help only raises the information flag. */
  lemma HelpRaisesInfo(a: Args, v: string)
    ensures Handle(a, Help, v) == Handled(a.(general := a.general.(optInfo := true)), false)
  {
    assert IsSettingSwitch(Help);
  }

  lemma HelpIsSecondOption()
    ensures FindFrom(OPTIONS, "help", 0) == Some(1) && OPTIONS[1] == OptionSpec("help", false, Help)
  {
    assert OPTIONS[0].name == "" && OPTIONS[1] == OptionSpec("help", false, Help);
    assert FindFrom(OPTIONS, "help", 1) == Some(1);
  }

  /** The argument "--help" is the option --help, without a value. */
  lemma HelpArgument(argv: seq<string>)
    requires |argv| == 2 && argv[1] == "--help"
    ensures NextStep(OPTIONS, argv, 1) == Take(OptionSpec("help", false, Help), "", 2)
  {
    assert OptName(argv[1]) == "help";
    HelpIsSecondOption();
    assert TakeValue(argv, 1, "help") == (None, 1);
  }

  /** "blitzping --help" raises the information flag and returns 0. */
  lemma ParseHelp(a: Args)
    ensures Parse(a, ["blitzping", "--help"]) == Parsed(a.(executableName := "blitzping", general := a.general.(optInfo := true)), 0)
  {
    var a' := a.(executableName := "blitzping");
    var argv := ["blitzping", "--help"];
    HelpArgument(argv);
    LastOptionEndsParse(OPTIONS, Handle, a', argv);
    HelpRaisesInfo(a', "");
  }

  /** When the last argument is the only option, parsing ends with what its
      handler returns. */
  lemma LastOptionEndsParse(table: seq<OptionSpec>, handle: Handler, a: Args, argv: seq<string>)
    requires |argv| == 2 && NextStep(table, argv, 1).Take?
    ensures var s := NextStep(table, argv, 1);
            var h := handle(a, s.opt.kind, s.value);
            ParseFrom(table, handle, a, argv, 1) == Parsed(h.args, if h.error then 1 else 0)
  {
  }
}
