// fill_defaults and how main ends (src/main.c).
//
// main zero-initialises the ProgramArgs record, allocates the IPv4 header
// template, fills in the defaults, parses the command line and, unless the
// run only asked for information, opens the raw socket and floods. Every
// failure sets `unrecoverable_error` and jumps to the common exit, which
// returns EXIT_FAILURE exactly when that flag is set. A run that gets past
// every check calls send_packets, which loops forever, so main then never
// returns. The allocation, the core count sysconf reports and whether the
// socket could be created are parameters; the flood itself is not part of
// this module.

module Startup {
  import Ipv4
  import Tcp
  import opened Program
  import Cmdline
  import opened Outcomes

  const EXIT_SUCCESS: int := 0
  const EXIT_FAILURE: int := 1

  // ===== fill_defaults =====

  /** The compound literal fill_defaults assigns to *program_args->ipv4:
      version 4, IHL 5, TTL 128, protocol TCP, total length of an IPv4 and a
      TCP header without options, both addresses 0; every field it does not
      name is 0. */
  function DefaultHeader(): Ipv4.Header
  {
    // version, ihl, tos, len, id, flags, fragofs, ttl, proto, chksum, saddr, daddr
    Ipv4.Encode(Ipv4.Fields(4, 5, 0, (Ipv4.IP_HDR_LEN + Tcp.TCP_HDR_LEN) as bv16, 0, 0, 0,
                            128, Ipv4.ProtocolCode(Ipv4.ProtoTcp), 0, 0, 0))
  }

  /** What the default header reads as through every view: 0x45 in byte 0,
      total length 40 stored as the bytes 0x00 0x28, TTL 128, protocol 6, and
      zero in every other field, including both views of the ToS byte and of
      the flags/fragment-offset word. */
  lemma DefaultHeaderFields()
    ensures Ipv4.Version(DefaultHeader()) == 4 && Ipv4.Ihl(DefaultHeader()) == 5
    ensures DefaultHeader()[0] == 0x45
    ensures Ipv4.Ttl(DefaultHeader()) == 128
    ensures Ipv4.Proto(DefaultHeader()) == Ipv4.ProtocolCode(Ipv4.ProtoTcp) == 6
    ensures Ipv4.Len(DefaultHeader()) as int == Ipv4.IP_HDR_LEN + Tcp.TCP_HDR_LEN == 40
    ensures DefaultHeader()[Ipv4.LEN_OFS..Ipv4.LEN_OFS + 2] == [0x00, 0x28]
    ensures Ipv4.Tos(DefaultHeader()) == 0
    ensures Ipv4.Dscp6(DefaultHeader()) == 0 && Ipv4.EcnBits(DefaultHeader()) == 0
    ensures Ipv4.Id(DefaultHeader()) == 0
    ensures Ipv4.FlagBits(DefaultHeader()) == 0 && Ipv4.FragOfs(DefaultHeader()) == 0
    ensures Ipv4.Chksum(DefaultHeader()) == 0
    ensures Ipv4.Saddr(DefaultHeader()) == 0 && Ipv4.Daddr(DefaultHeader()) == 0
  {
    var f := Ipv4.Fields(4, 5, 0, 40, 0, 0, 0, 128, 6, 0, 0, 0);
    assert DefaultHeader() == Ipv4.Encode(f);
    Ipv4.DecodeEncode(f);
  }

  /** The record after fill_defaults: log level LOG_INFO, one thread per core,
      the default header; nothing else changes. */
  function Defaults(a: Args): Args
  {
    a.(general := a.general.(loggerLevel := LOG_INFO),
       advanced := a.advanced.(numThreads := a.numCores),
       ipv4 := DefaultHeader())
  }

  /** fill_defaults: assigns the three defaults in place. */
  method FillDefaults(args: ProgramArgs)
    modifies args
    ensures args.Snapshot() == Defaults(old(args.Snapshot()))
    ensures args.general.loggerLevel == LOG_INFO
    ensures args.advanced.numThreads == args.numCores
    ensures args.ipv4 == DefaultHeader()
  {
    args.general := args.general.(loggerLevel := LOG_INFO);
    args.advanced := args.advanced.(numThreads := args.numCores);
    args.ipv4 := DefaultHeader();
  }

  // ===== main =====

  /** `struct ProgramArgs program_args = {0}` with the given error flag and
      core count; the header is the zeroed one calloc hands back. */
  function Zeroed(unrecoverableError: bool, numCores: UInt): Args
  {
    Args("", unrecoverableError, numCores, General(false, 0),
         Advanced(false, false, 0, false, 0, false, false, false),
         ParserState(NoLayer, NoProto), seq(Ipv4.IP_HDR_LEN, _ => 0), Ipv4Misc(false, false, false))
  }

  /** The record main parses into: zero-initialised, the core count that
      diagnose_system stores, then the defaults. */
  function Configured(numCores: UInt): Args
  {
    Defaults(Zeroed(false, numCores))
  }

  /** How main ends: it returns a status from the CLEANUP label, or it calls
      send_packets, whose `for (;;)` loop never returns, so main never gets
      back to CLEANUP. */
  datatype Ending = Exits(status: int) | Floods

  /** The record at the CLEANUP label, or None when main floods instead.
      `headerOk` says whether calloc of the header succeeded, `socketOk`
      whether create_raw_async_socket did. */
  function AtCleanup(argv: seq<string>, headerOk: bool, numCores: UInt, socketOk: bool): Option<Args>
    requires |argv| >= 1
  {
    if !headerOk then Some(Zeroed(true, 0))
    else AfterParse(Cmdline.Parse(Configured(numCores), argv), socketOk)
  }

  /** The rest of main once parse_args has returned. */
  function AfterParse(p: Cmdline.Parsed, socketOk: bool): Option<Args>
  {
    if p.status != 0 then Some(p.args.(unrecoverableError := true))
    else if p.args.general.optInfo then Some(p.args)
    else if !socketOk then Some(p.args.(unrecoverableError := true))
    else None
  }

  /** How main ends: the status it returns, from the error flag at CLEANUP. */
  function MainEnding(argv: seq<string>, headerOk: bool, numCores: UInt, socketOk: bool): Ending
    requires |argv| >= 1
  {
    match AtCleanup(argv, headerOk, numCores, socketOk)
    case None => Floods
    case Some(a) => Exits(if a.unrecoverableError then EXIT_FAILURE else EXIT_SUCCESS)
  }

  /** Parsing never touches the error flag or the core count: handle_option
      writes only the option fields. */
  lemma HandleKeepsDiagnostics(a: Args, k: Cmdline.OptionKind, v: string)
    ensures Cmdline.Handle(a, k, v).args.unrecoverableError == a.unrecoverableError
    ensures Cmdline.Handle(a, k, v).args.numCores == a.numCores
  {
    if Cmdline.Bounds(k).Some? {
      var r := Cmdline.ReadValue(k, v);
      StoreKeepsDiagnostics(a, k, Cmdline.Returned(r));
    } else if k == Cmdline.SrcIp || k == Cmdline.DestIp {
    } else if Cmdline.IsSettingSwitch(k) {
      SettingKeepsDiagnostics(a, k);
    } else if Cmdline.IsBitSwitch(k) {
      BitKeepsDiagnostics(a, k);
    } else {
      LayerKeepsDiagnostics(a, k);
    }
  }

  lemma StoreKeepsDiagnostics(a: Args, k: Cmdline.OptionKind, x: int)
    requires Cmdline.Bounds(k).Some?
    ensures Cmdline.Store(a, k, x).unrecoverableError == a.unrecoverableError
    ensures Cmdline.Store(a, k, x).numCores == a.numCores
  {
  }

  lemma SettingKeepsDiagnostics(a: Args, k: Cmdline.OptionKind)
    requires Cmdline.IsSettingSwitch(k)
    ensures Cmdline.SettingSwitched(a, k).args.unrecoverableError == a.unrecoverableError
    ensures Cmdline.SettingSwitched(a, k).args.numCores == a.numCores
  {
  }

  lemma BitKeepsDiagnostics(a: Args, k: Cmdline.OptionKind)
    requires Cmdline.IsBitSwitch(k)
    ensures Cmdline.BitSwitched(a, k).args.unrecoverableError == a.unrecoverableError
    ensures Cmdline.BitSwitched(a, k).args.numCores == a.numCores
  {
  }

  lemma LayerKeepsDiagnostics(a: Args, k: Cmdline.OptionKind)
    requires Cmdline.IsLayerSwitch(k)
    ensures Cmdline.LayerSwitched(a, k).args.unrecoverableError == a.unrecoverableError
    ensures Cmdline.LayerSwitched(a, k).args.numCores == a.numCores
  {
  }

  lemma {:induction false} ParseFromKeepsDiagnostics(a: Args, argv: seq<string>, i: nat)
    requires 1 <= i <= |argv|
    ensures Cmdline.ParseFrom(Cmdline.OPTIONS, Cmdline.Handle, a, argv, i).args.unrecoverableError
            == a.unrecoverableError
    decreases |argv| - i
  {
    if i < |argv| {
      match Cmdline.NextStep(Cmdline.OPTIONS, argv, i) {
        case Stop(_) =>
        case Take(opt, value, next) =>
          HandleKeepsDiagnostics(a, opt.kind, value);
          var h := Cmdline.Handle(a, opt.kind, value);
          if !h.error {
            ParseFromKeepsDiagnostics(h.args, argv, next);
          }
      }
    }
  }

  lemma ParseKeepsDiagnostics(a: Args, argv: seq<string>)
    requires |argv| >= 1
    ensures Cmdline.Parse(a, argv).args.unrecoverableError == a.unrecoverableError
  {
    if |argv| > 1 {
      ParseFromKeepsDiagnostics(a.(executableName := argv[0]), argv, 1);
    }
  }

  /** main floods exactly when the header was allocated, the command line
      parsed, the run is not information-only and the socket was created.
      Otherwise it returns EXIT_SUCCESS or EXIT_FAILURE, and it fails exactly
      when the header could not be allocated, the command line did not parse,
      or a run that is not information-only could not create its socket. */
  lemma ExitStatusCases(argv: seq<string>, headerOk: bool, numCores: UInt, socketOk: bool)
    requires |argv| >= 1
    ensures var p := Cmdline.Parse(Configured(numCores), argv);
            MainEnding(argv, headerOk, numCores, socketOk) == Floods
            <==> headerOk && p.status == 0 && !p.args.general.optInfo && socketOk
    ensures MainEnding(argv, headerOk, numCores, socketOk).Exits? ==>
              MainEnding(argv, headerOk, numCores, socketOk).status in {EXIT_SUCCESS, EXIT_FAILURE}
    ensures var p := Cmdline.Parse(Configured(numCores), argv);
            MainEnding(argv, headerOk, numCores, socketOk) == Exits(EXIT_FAILURE)
            <==> !headerOk || p.status != 0 || (!p.args.general.optInfo && !socketOk)
    ensures var p := Cmdline.Parse(Configured(numCores), argv);
            MainEnding(argv, headerOk, numCores, socketOk) == Exits(EXIT_SUCCESS)
            <==> headerOk && p.status == 0 && p.args.general.optInfo
  {
    ParseKeepsDiagnostics(Configured(numCores), argv);
  }

  /** Run without arguments, main shows the help text and fails. */
  lemma NoArgumentsFails(argv0: string, numCores: UInt, socketOk: bool)
    ensures MainEnding([argv0], true, numCores, socketOk) == Exits(EXIT_FAILURE)
  {
    ExitStatusCases([argv0], true, numCores, socketOk);
  }

  /** "blitzping --help" only asks for information: main succeeds without
      opening a socket, whether or not one could have been created. */
  lemma HelpRunSucceeds(numCores: UInt, socketOk: bool)
    ensures MainEnding(["blitzping", "--help"], true, numCores, socketOk) == Exits(EXIT_SUCCESS)
    ensures AtCleanup(["blitzping", "--help"], true, numCores, socketOk).Some?
    ensures !AtCleanup(["blitzping", "--help"], true, numCores, socketOk).value.unrecoverableError
  {
    Cmdline.ParseHelp(Configured(numCores));
  }

  /** main, step by step, with the same early exits to CLEANUP. When every
      step succeeds it hands over to send_packets, which never returns: the
      method then reports Floods instead of a status. */
  method RunMain(argv: seq<string>, headerOk: bool, numCores: UInt, socketOk: bool) returns (ending: Ending)
    requires |argv| >= 1
    ensures ending == MainEnding(argv, headerOk, numCores, socketOk)
  {
    var args := new ProgramArgs();
    var floods := false;
    if !headerOk {
      args.unrecoverableError := true;
    } else {
      // diagnose_system(&program_args): the core count is a parameter
      args.numCores := numCores;
      FillDefaults(args);
      assert args.Snapshot() == Configured(numCores);
      var parsed := Cmdline.ParseArgs(argv, args);
      if parsed != 0 {
        args.unrecoverableError := true;
      } else if args.general.optInfo {
        // information only
      } else if !socketOk {
        args.unrecoverableError := true;
      } else {
        // send_packets(&program_args) does not return
        floods := true;
      }
    }
    if floods {
      ending := Floods;
    } else {
      assert AtCleanup(argv, headerOk, numCores, socketOk) == Some(args.Snapshot());
      ending := Exits(if args.unrecoverableError then EXIT_FAILURE else EXIT_SUCCESS);
    }
  }
}
