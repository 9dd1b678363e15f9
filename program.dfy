// struct ProgramArgs: the one record the whole program threads through
// main, fill_defaults, parse_args and handle_option. Its sub-structures are
// plain values (datatypes) that the C code updates field by field; the record
// itself is a class whose fields those functions assign in place.
//
// The IPv4 header it points to is kept as a 20-byte header value owned by the
// record (see Ipv4.Header).

module Program {
  import Ipv4

  /** unsigned int on the hosts the program targets. */
  type UInt = x: int | 0 <= x < 0x1_0000_0000

  /** log_level_t */
  const LOG_NONE: int := -1
  const LOG_CRIT: int := 0
  const LOG_ERROR: int := 1
  const LOG_WARN: int := 2
  const LOG_INFO: int := 3
  const LOG_DEBUG: int := 4

  /** general.* */
  datatype General = General(optInfo: bool, loggerLevel: int)

  /** advanced.* */
  datatype Advanced = Advanced(
    bypassChecks: bool,
    noLogTimestamp: bool,
    numThreads: UInt,
    nativeThreads: bool,
    bufferSize: UInt,
    noAsyncSock: bool,
    noMemLock: bool,
    noCpuPrefetch: bool)

  /** The header layer and protocol the option parser is currently filling in
      (parser.current_layer / parser.current_proto); zero-initialised to "none". */
  datatype Layer = NoLayer | Layer3 | Layer4
  datatype Selected = NoProto | L3Ipv4 | L3Ipv6 | L4Tcp | L4Udp | L4Icmp
  datatype ParserState = ParserState(currentLayer: Layer, currentProto: Selected)

  /** ipv4_misc.*: which header fields the user fixed by hand. */
  datatype Ipv4Misc = Ipv4Misc(overrideChecksum: bool, overrideSource: bool, overrideLength: bool)

  /** A snapshot of every field of the record the modelled code reads or writes. */
  datatype Args = Args(
    executableName: string,
    unrecoverableError: bool,
    numCores: UInt,
    general: General,
    advanced: Advanced,
    parser: ParserState,
    ipv4: Ipv4.Header,
    ipv4Misc: Ipv4Misc)

  /** The all-zero header `calloc` hands back. */
  const ZERO_HEADER: Ipv4.Header := seq(Ipv4.IP_HDR_LEN, _ => 0)

  /** `struct ProgramArgs program_args = {0}` together with the calloc'ed header. */
  const ZERO_ARGS: Args := Args(
    "", false, 0,
    General(false, 0),
    Advanced(false, false, 0, false, 0, false, false, false),
    ParserState(NoLayer, NoProto),
    ZERO_HEADER,
    Ipv4Misc(false, false, false))

  class ProgramArgs {
    var executableName: string
    var unrecoverableError: bool
    var numCores: UInt
    var general: General
    var advanced: Advanced
    var parser: ParserState
    var ipv4: Ipv4.Header
    var ipv4Misc: Ipv4Misc

    /** The record's current contents as a value. */
    function Snapshot(): Args
      reads this
    {
      Args(executableName, unrecoverableError, numCores, general, advanced, parser, ipv4, ipv4Misc)
    }

    /** The zero-initialised record of main (src/main.c:149-159). */
    constructor ()
      ensures Snapshot() == ZERO_ARGS
    {
      executableName := "";
      unrecoverableError := false;
      numCores := 0;
      general := ZERO_ARGS.general;
      advanced := ZERO_ARGS.advanced;
      parser := ZERO_ARGS.parser;
      ipv4 := ZERO_HEADER;
      ipv4Misc := ZERO_ARGS.ipv4Misc;
    }
  }
}
