// handle_option, validate_range and parse_args of the older option parser
// (src/parser.c), together with the record they fill in (src/parser.h).
//
// This snapshot differs from the later parser in three ways the model keeps:
// an option consumes the next argument only when its table entry says it
// takes a value; validate_range ends the whole program with exit(EXIT_FAILURE)
// instead of reporting an error; and handle_option sets only the general
// flags and the threading and buffer settings, ignoring every header option.
// The argument-shape helpers (IsOptionArg, OptName, Matches, TakeValue,
// Usable) are the ones of the later parser, which scans argv the same way.

module LegacyParser {
  import opened Outcomes
  import opened CLib
  import CmdlineValues
  import Cmdline

  // ===== the option table =====

  /** enum OptionKind of this snapshot. */
  datatype OptionKind =
    | NoOption
    | Help | About | ShowVersion | Quiet
    | BypassChecks | NumThreads | NativeThreads | BufferSize
    | NoAsyncSock | NoMemLock | NoPrefetch
    | Ipv4Header | IpSource | IpDest | IpVer | IpIhl | IpTos | IpPrec
    | IpMinDelay | IpMaxTput | IpMaxRely | IpMinCost | IpMustZero
    | IpDscp | IpEcn | IpLen | IpIdent | IpFlags
    | IpEvilBit | IpDontFrag | IpMoreFrag | IpFragOfs | IpTtl | IpProto
    | IpChecksum | IpOptions
    | Ipv6Header | Ip6Source | Ip6Dest | Ip6NextHeader | Ip6HopLimit | Ip6FlowLabel

  /** struct Option: a one-letter flag ('\0' for none), the long name,
      whether a value follows, and the kind. */
  datatype OptionSpec = OptionSpec(flag: char, name: string, hasArg: bool, kind: OptionKind)

  const GENERAL_OPTIONS: seq<OptionSpec> := [
    OptionSpec('\0', "", false, NoOption),
    OptionSpec('?', "help", false, Help),
    OptionSpec('!', "about", false, About),
    OptionSpec('V', "version", false, ShowVersion),
    OptionSpec('Q', "quiet", false, Quiet)]

  const ADVANCED_OPTIONS: seq<OptionSpec> := [
    OptionSpec('$', "bypass-checks", false, BypassChecks),
    OptionSpec('#', "num-threads", true, NumThreads),
    OptionSpec('\0', "native-threads", false, NativeThreads),
    OptionSpec('\0', "buffer-size", true, BufferSize),
    OptionSpec('\0', "no-async-sock", false, NoAsyncSock),
    OptionSpec('\0', "no-mem-lock", false, NoMemLock),
    OptionSpec('\0', "no-prefetch", false, NoPrefetch)]

  const IPV4_ADDRESS_OPTIONS: seq<OptionSpec> := [
    OptionSpec('4', "ipv4", false, Ipv4Header),
    OptionSpec('\0', "source-ip", true, IpSource),
    OptionSpec('\0', "dest-ip", true, IpDest),
    OptionSpec('\0', "ver", true, IpVer),
    OptionSpec('\0', "ihl", true, IpIhl),
    OptionSpec('\0', "tos", true, IpTos),
    OptionSpec('\0', "prec", true, IpPrec)]

  const IPV4_TOS_OPTIONS: seq<OptionSpec> := [
    OptionSpec('\0', "min-delay", true, IpMinDelay),
    OptionSpec('\0', "max-tput", true, IpMaxTput),
    OptionSpec('\0', "max-rely", true, IpMaxRely),
    OptionSpec('\0', "min-cost", true, IpMinCost),
    OptionSpec('\0', "must-zero", true, IpMustZero),
    OptionSpec('\0', "dscp", true, IpDscp),
    OptionSpec('\0', "ecn", true, IpEcn)]

  const IPV4_FIELD_OPTIONS: seq<OptionSpec> := [
    OptionSpec('\0', "len", true, IpLen),
    OptionSpec('\0', "ident", true, IpIdent),
    OptionSpec('\0', "flags", true, IpFlags),
    OptionSpec('\0', "evil-bit", true, IpEvilBit),
    OptionSpec('\0', "dont-frag", true, IpDontFrag),
    OptionSpec('\0', "more-frag", true, IpMoreFrag),
    OptionSpec('\0', "frag-ofs", true, IpFragOfs),
    OptionSpec('\0', "ttl", true, IpTtl),
    OptionSpec('\0', "proto", true, IpProto),
    OptionSpec('\0', "checksum", true, IpChecksum),
    OptionSpec('\0', "options", true, IpOptions)]

  const IPV6_OPTIONS: seq<OptionSpec> := [
    OptionSpec('6', "ipv6", false, Ipv6Header),
    OptionSpec('\0', "source-ip6", true, Ip6Source),
    OptionSpec('\0', "dest-ip6", true, Ip6Dest),
    OptionSpec('\0', "next-header", true, Ip6NextHeader),
    OptionSpec('\0', "hop-limit", true, Ip6HopLimit),
    OptionSpec('\0', "flow-label", true, Ip6FlowLabel)]

  /** OPTIONS[], in table order. */
  const OPTIONS: seq<OptionSpec> :=
    GENERAL_OPTIONS + ADVANCED_OPTIONS + IPV4_ADDRESS_OPTIONS + IPV4_TOS_OPTIONS
    + IPV4_FIELD_OPTIONS + IPV6_OPTIONS

  // ===== the record =====

  /** general.* of this snapshot: one flag per informational option. */
  datatype General = General(optHelp: bool, optAbout: bool, optVersion: bool, optQuiet: bool)

  /** advanced.* */
  datatype Advanced = Advanced(
    bypassChecks: bool,
    numThreads: int,
    nativeThreads: bool,
    bufferSize: int,
    noAsyncSock: bool,
    noMemLock: bool,
    noPrefetch: bool)

  /** The fields of struct ProgramArgs this parser reads or writes. */
  datatype Args = Args(executableName: string, general: General, advanced: Advanced)

  const ZERO_ARGS: Args :=
    Args("", General(false, false, false, false), Advanced(false, 0, false, 0, false, false, false))

  /** struct ProgramArgs, assigned in place by parse_args and handle_option. */
  class ProgramArgs {
    var executableName: string
    var general: General
    var advanced: Advanced

    function Snapshot(): Args
      reads this
    {
      Args(executableName, general, advanced)
    }

    /** A zero-initialised record. */
    constructor ()
      ensures Snapshot() == ZERO_ARGS
    {
      executableName := "";
      general := General(false, false, false, false);
      advanced := Advanced(false, 0, false, 0, false, false, false);
    }
  }

  // ===== handle_option =====

  const UINT_MAX: int := 0xFFFF_FFFF
  /** _POSIX_VERSION of POSIX.1-2008, the bound --buffer-size is checked against. */
  const POSIX_VERSION: int := 200809

  /** What handle_option leads to: the program goes on with the new record,
      or validate_range has ended it with exit(EXIT_FAILURE). */
  datatype Handled = Continue(args: Args) | Exit

  /** The range validate_range checks a numeric option against. */
  function Bounds(k: OptionKind): Option<(int, int)>
  {
    match k
    case NumThreads => Some((0, UINT_MAX))
    case BufferSize => Some((0, POSIX_VERSION))
    case _ => None
  }

  /** handle_option: the four general options, --bypass-checks and
      --native-threads raise their flag, --num-threads and --buffer-size
      store their validated value, and every other option (--no-async-sock,
      --no-mem-lock and --no-prefetch, OPTION_NONE included) changes nothing
      (OPTION_NONE only prints an error). */
  function Handle(a: Args, k: OptionKind, v: string): (h: Handled)
    ensures h.Exit? ==> Bounds(k).Some?
    ensures h.Continue? ==> h.args.executableName == a.executableName
  {
    match k
    case Help => Continue(a.(general := a.general.(optHelp := true)))
    case About => Continue(a.(general := a.general.(optAbout := true)))
    case ShowVersion => Continue(a.(general := a.general.(optVersion := true)))
    case Quiet => Continue(a.(general := a.general.(optQuiet := true)))
    case BypassChecks => Continue(a.(advanced := a.advanced.(bypassChecks := true)))
    case NumThreads =>
      var r := CmdlineValues.ValidateRange(v, 0, UINT_MAX);
      if r.None? then Exit else Continue(a.(advanced := a.advanced.(numThreads := r.value)))
    case NativeThreads => Continue(a.(advanced := a.advanced.(nativeThreads := true)))
    case BufferSize =>
      var r := CmdlineValues.ValidateRange(v, 0, POSIX_VERSION);
      if r.None? then Exit else Continue(a.(advanced := a.advanced.(bufferSize := r.value)))
    case _ => Continue(a)
  }

  /** A numeric option stores exactly the number its value spells when that
      lies in range, and ends the program otherwise: the value stored is
      always within the option's bounds. */
  lemma NumericOption(a: Args, k: OptionKind, v: string)
    requires Bounds(k).Some?
    ensures var (lo, hi) := Bounds(k).value;
            var r := CmdlineValues.ValidateRange(v, lo, hi);
            && (Handle(a, k, v).Exit? <==> r.None?)
            && (r.Some? ==> lo <= r.value <= hi)
            && (r.Some? && k == NumThreads ==>
                  Handle(a, k, v) == Continue(a.(advanced := a.advanced.(numThreads := r.value))))
            && (r.Some? && k == BufferSize ==>
                  Handle(a, k, v) == Continue(a.(advanced := a.advanced.(bufferSize := r.value))))
  {
  }

  /** Every count in range, written in decimal, is stored as itself. */
  lemma NumThreadsDecimal(a: Args, n: nat)
    requires n <= UINT_MAX
    ensures Handle(a, NumThreads, Decimal(n)) == Continue(a.(advanced := a.advanced.(numThreads := n)))
  {
    CmdlineValues.ValidateRangeDecimal(n, 0, UINT_MAX);
  }

  /** A buffer size above _POSIX_VERSION, or a value with anything after the
      digits, ends the program. */
  lemma BufferSizeTooLarge(a: Args, n: nat)
    requires POSIX_VERSION < n <= LONG_MAX
    ensures Handle(a, BufferSize, Decimal(n)) == Exit
  {
    StrtolDecimal(n);
  }

  /** handle_option, assigning the record in place; `exited` is true where
      validate_range calls exit. */
  method HandleOption(opt: OptionSpec, value: string, args: ProgramArgs) returns (exited: bool)
    modifies args
    ensures exited <==> Handle(old(args.Snapshot()), opt.kind, value).Exit?
    ensures !exited ==> args.Snapshot() == Handle(old(args.Snapshot()), opt.kind, value).args
  {
    exited := false;
    match opt.kind {
      case Help =>
        args.general := args.general.(optHelp := true);
      case About =>
        args.general := args.general.(optAbout := true);
      case ShowVersion =>
        args.general := args.general.(optVersion := true);
      case Quiet =>
        args.general := args.general.(optQuiet := true);
      case BypassChecks =>
        args.advanced := args.advanced.(bypassChecks := true);
      case NumThreads =>
        var r := CmdlineValues.ValidateRange(value, 0, UINT_MAX);
        if r.None? {
          return true;
        }
        args.advanced := args.advanced.(numThreads := r.value);
      case NativeThreads =>
        args.advanced := args.advanced.(nativeThreads := true);
      case BufferSize =>
        var r := CmdlineValues.ValidateRange(value, 0, POSIX_VERSION);
        if r.None? {
          return true;
        }
        args.advanced := args.advanced.(bufferSize := r.value);
      case _ =>
    }
  }

  // ===== parse_args =====

  /** The first entry of the table, from j on, whose name the option text
      matches. */
  function FindFrom(table: seq<OptionSpec>, optName: string, j: nat): (r: Option<nat>)
    requires j <= |table|
    ensures r.Some? ==> j <= r.value < |table| && Cmdline.Matches(optName, table[r.value].name)
    ensures r.Some? ==> forall i :: j <= i < r.value ==> !Cmdline.Matches(optName, table[i].name)
    ensures r.None? ==> forall i :: j <= i < |table| ==> !Cmdline.Matches(optName, table[i].name)
    decreases |table| - j
  {
    if j == |table| then None
    else if Cmdline.Matches(optName, table[j].name) then Some(j)
    else FindFrom(table, optName, j + 1)
  }

  /** What parse_args does with argument i: stop with a status, or hand an
      option and its value to handle_option and go on at argument next. */
  datatype Step = Stop(status: int) | Take(opt: OptionSpec, value: string, next: nat)

  /** The step for argument i. An argument that is not an option, an option
      not in the table, and an option that takes a value and has no usable
      one stop parsing with 1. Only an option that takes a value looks at
      what follows it; the others reach handle_option with no value (""). */
  function NextStep(table: seq<OptionSpec>, argv: seq<string>, i: nat): (s: Step)
    requires 1 <= i < |argv|
    ensures s.Stop? ==> s.status == 1
    ensures s.Take? ==> s.opt in table && i < s.next <= i + 2 && s.next <= |argv|
    ensures s.Take? && !s.opt.hasArg ==> s.next == i + 1 && s.value == ""
    ensures s.Take? && s.opt.hasArg ==> Cmdline.Usable(Some(s.value))
  {
    if !Cmdline.IsOptionArg(argv[i]) then Stop(1)
    else
      var optName := Cmdline.OptName(argv[i]);
      match FindFrom(table, optName, 0)
      case None => Stop(1)
      case Some(j) =>
        var opt := table[j];
        if !opt.hasArg then Take(opt, "", i + 1)
        else
          var t := Cmdline.TakeValue(argv, i, optName);
          if Cmdline.Usable(t.0) then Take(opt, t.0.value, t.1 + 1) else Stop(1)
  }

  /** How parse_args ends: it returns a status with the record it filled
      in, or the program has exited inside validate_range. */
  datatype Outcome = Returned(args: Args, status: int) | Exited

  /** parse_args from argument i on, for an option table. */
  function ParseFrom(table: seq<OptionSpec>, a: Args, argv: seq<string>, i: nat): Outcome
    requires 1 <= i <= |argv|
    decreases |argv| - i
  {
    if i == |argv| then Returned(a, 0)
    else
      match NextStep(table, argv, i)
      case Stop(status) => Returned(a, status)
      case Take(opt, value, next) =>
        match Handle(a, opt.kind, value)
        case Exit => Exited
        case Continue(a') => ParseFrom(table, a', argv, next)
  }

  /** parse_args: argv[0] names the executable; without any further argument
      the help text is shown and 1 returned. */
  function Parse(a: Args, argv: seq<string>): Outcome
    requires |argv| >= 1
  {
    var a' := a.(executableName := argv[0]);
    if |argv| == 1 then Returned(a', 1) else ParseFrom(OPTIONS, a', argv, 1)
  }

  /** The outcome a run of the C loop describes. */
  function OutcomeOf(exited: bool, a: Args, status: int): Outcome
  {
    if exited then Exited else Returned(a, status)
  }

  /** parse_args, assigning the record in place. */
  method ParseArgs(argv: seq<string>, args: ProgramArgs) returns (exited: bool, status: int)
    requires |argv| >= 1
    modifies args
    ensures OutcomeOf(exited, args.Snapshot(), status) == Parse(old(args.Snapshot()), argv)
  {
    args.executableName := argv[0];
    if |argv| == 1 {
      return false, 1;
    }
    exited, status := ParseOptions(OPTIONS, argv, args);
  }

  /** The loop of parse_args over argv[1..], for an option table. */
  method ParseOptions(table: seq<OptionSpec>, argv: seq<string>, args: ProgramArgs)
    returns (exited: bool, status: int)
    requires |argv| >= 1
    modifies args
    ensures OutcomeOf(exited, args.Snapshot(), status) == ParseFrom(table, old(args.Snapshot()), argv, 1)
  {
    var i := 1;
    while i < |argv|
      invariant 1 <= i <= |argv|
      invariant ParseFrom(table, args.Snapshot(), argv, i) == ParseFrom(table, old(args.Snapshot()), argv, 1)
      decreases |argv| - i
    {
      var found, opt, value, next := ScanOption(table, argv, i);
      if !found {
        return false, 1;
      }
      exited := HandleOption(opt, value, args);
      if exited {
        return true, 1;
      }
      i := next;
    }
    return false, 0;
  }

  /** The inner loop of parse_args over the table: the index of the first
      entry the option text matches, or -1. */
  method LookupOption(table: seq<OptionSpec>, optName: string) returns (j: int)
    ensures j < 0 <==> FindFrom(table, optName, 0).None?
    ensures j >= 0 ==> FindFrom(table, optName, 0) == Some(j)
  {
    j := 0;
    while j < |table|
      invariant 0 <= j <= |table|
      invariant forall i :: 0 <= i < j ==> !Cmdline.Matches(optName, table[i].name)
    {
      var name := table[j].name;
      if |name| <= |optName| && optName[..|name|] == name
         && (|optName| == |name| || optName[|name|] == '=')
      {
        return;
      }
      j := j + 1;
    }
    j := -1;
  }

  /** Argument i read as an option: its table entry, the value handed on and
      the argument after the last one it uses. */
  method ScanOption(table: seq<OptionSpec>, argv: seq<string>, i: nat)
    returns (found: bool, opt: OptionSpec, value: string, next: nat)
    requires 1 <= i < |argv|
    ensures found <==> NextStep(table, argv, i).Take?
    ensures found ==> NextStep(table, argv, i) == Take(opt, value, next)
  {
    found, opt, value, next := false, OptionSpec('\0', "", false, NoOption), "", i;
    var arg := argv[i];
    if !Cmdline.IsOptionArg(arg) {
      return;
    }
    var optName := Cmdline.OptName(arg);
    var j := LookupOption(table, optName);
    if j < 0 {
      return;
    }
    assert NextStep(table, argv, i) == (
      if !table[j].hasArg then Take(table[j], "", i + 1)
      else
        var t := Cmdline.TakeValue(argv, i, optName);
        if Cmdline.Usable(t.0) then Take(table[j], t.0.value, t.1 + 1) else Stop(1));
    if !table[j].hasArg {
      return true, table[j], "", i + 1;
    }
    var v: Option<string> := None;
    var last := i;
    if '=' in optName {
      v := Some(optName[IndexOf(optName, '=') + 1..]);
    } else if i + 1 < |argv| && !Cmdline.IsOptionArg(argv[i + 1]) {
      last := i + 1;
      v := Some(argv[last]);
    }
    assert (v, last) == Cmdline.TakeValue(argv, i, optName);
    if v.None? || |v.value| == 0 || v.value[0] == ' ' {
      return;
    }
    found, opt, value, next := true, table[j], v.value, last + 1;
  }

  // ----- what parse_args promises -----

  /** parse_args returns 0 or 1 unless validate_range has ended the program. */
  lemma {:induction false} ParseFromStatus(table: seq<OptionSpec>, a: Args, argv: seq<string>, i: nat)
    requires 1 <= i <= |argv|
    ensures ParseFrom(table, a, argv, i).Returned? ==> ParseFrom(table, a, argv, i).status in {0, 1}
    decreases |argv| - i
  {
    if i < |argv| && NextStep(table, argv, i).Take? {
      var s := NextStep(table, argv, i);
      var h := Handle(a, s.opt.kind, s.value);
      if h.Continue? {
        ParseFromStatus(table, h.args, argv, s.next);
      }
    }
  }

  lemma ParseStatus(a: Args, argv: seq<string>)
    requires |argv| >= 1
    ensures Parse(a, argv).Returned? ==> Parse(a, argv).status in {0, 1}
  {
    if |argv| > 1 {
      ParseFromStatus(OPTIONS, a.(executableName := argv[0]), argv, 1);
    }
  }

  /** Only a numeric option with a bad value ends the program: a command
      line without --num-threads and --buffer-size always returns. */
  lemma {:induction false} ParseFromExitsOnlyOnNumbers(table: seq<OptionSpec>, a: Args, argv: seq<string>, i: nat)
    requires 1 <= i <= |argv|
    requires forall k :: i <= k < |argv| && NextStep(table, argv, k).Take? ==> Bounds(NextStep(table, argv, k).opt.kind).None?
    ensures ParseFrom(table, a, argv, i).Returned?
    decreases |argv| - i
  {
    if i < |argv| && NextStep(table, argv, i).Take? {
      var s := NextStep(table, argv, i);
      var h := Handle(a, s.opt.kind, s.value);
      ParseFromExitsOnlyOnNumbers(table, h.args, argv, s.next);
    }
  }

  /** Without arguments parse_args records the executable name and returns 1. */
  lemma NoArguments(a: Args, argv0: string)
    ensures Parse(a, [argv0]) == Returned(a.(executableName := argv0), 1)
  {
  }

  /** An argument that starts with neither '-' nor '/' stops parsing with 1,
      keeping what the options before it set. */
  lemma NonOptionStops(table: seq<OptionSpec>, a: Args, argv: seq<string>, i: nat)
    requires 1 <= i < |argv| && !Cmdline.IsOptionArg(argv[i])
    ensures ParseFrom(table, a, argv, i) == Returned(a, 1)
  {
  }

  /** An option that matches no table entry stops parsing with 1. */
  lemma UnknownOptionStops(table: seq<OptionSpec>, a: Args, argv: seq<string>, i: nat)
    requires 1 <= i < |argv| && Cmdline.IsOptionArg(argv[i])
    requires forall j :: 0 <= j < |table| ==> !Cmdline.Matches(Cmdline.OptName(argv[i]), table[j].name)
    ensures ParseFrom(table, a, argv, i) == Returned(a, 1)
  {
  }

  /** "-" and "--" match the nameless first entry, OPTION_NONE, which only
      prints an error: the run goes on and, alone, returns 0. */
  lemma LoneDashAccepted(a: Args)
    ensures Parse(a, ["blitzping", "-"]) == Returned(a.(executableName := "blitzping"), 0)
    ensures Parse(a, ["blitzping", "--"]) == Returned(a.(executableName := "blitzping"), 0)
  {
    assert FindFrom(OPTIONS, "", 0) == Some(0);
  }

  /** No long name is one character long. */
  predicate NoOneLetterNames(table: seq<OptionSpec>)
  {
    forall i :: 0 <= i < |table| ==> |table[i].name| != 1
  }

  lemma NoOneLetterConcat(x: seq<OptionSpec>, y: seq<OptionSpec>)
    requires NoOneLetterNames(x) && NoOneLetterNames(y)
    ensures NoOneLetterNames(x + y)
  {
    forall i | 0 <= i < |x + y|
      ensures |(x + y)[i].name| != 1
    {
      if i >= |x| {
        assert (x + y)[i] == y[i - |x|];
      }
    }
  }

  lemma GeneralNames() ensures NoOneLetterNames(GENERAL_OPTIONS) {}
  lemma AdvancedNames() ensures NoOneLetterNames(ADVANCED_OPTIONS) {}
  lemma Ipv4AddressNames() ensures NoOneLetterNames(IPV4_ADDRESS_OPTIONS) {}
  lemma Ipv4TosNames() ensures NoOneLetterNames(IPV4_TOS_OPTIONS) {}
  lemma Ipv4FieldNames() ensures NoOneLetterNames(IPV4_FIELD_OPTIONS) {}
  lemma Ipv6Names() ensures NoOneLetterNames(IPV6_OPTIONS) {}

  lemma OptionNamesNotOneLetter()
    ensures NoOneLetterNames(OPTIONS)
  {
    GeneralNames();
    AdvancedNames();
    Ipv4AddressNames();
    Ipv4TosNames();
    Ipv4FieldNames();
    Ipv6Names();
    var t := GENERAL_OPTIONS;
    NoOneLetterConcat(t, ADVANCED_OPTIONS);
    t := t + ADVANCED_OPTIONS;
    NoOneLetterConcat(t, IPV4_ADDRESS_OPTIONS);
    t := t + IPV4_ADDRESS_OPTIONS;
    NoOneLetterConcat(t, IPV4_TOS_OPTIONS);
    t := t + IPV4_TOS_OPTIONS;
    NoOneLetterConcat(t, IPV4_FIELD_OPTIONS);
    t := t + IPV4_FIELD_OPTIONS;
    NoOneLetterConcat(t, IPV6_OPTIONS);
    t := t + IPV6_OPTIONS;
    assert t == OPTIONS;
  }

  /** parse_args never consults the one-letter flags of the table: "-c" for
      any character c other than '-' and '=' is an unknown option, so "-V"
      or "-?" stop parsing with 1. */
  lemma ShortFlagsUnknown(a: Args, c: char)
    requires c != '-' && c != '='
    ensures Parse(a, ["blitzping", ['-', c]]) == Returned(a.(executableName := "blitzping"), 1)
  {
    var argv := ["blitzping", ['-', c]];
    assert Cmdline.OptName(argv[1]) == [c];
    OptionNamesNotOneLetter();
    forall j | 0 <= j < |OPTIONS|
      ensures !Cmdline.Matches([c], OPTIONS[j].name)
    {
    }
  }

  /** An option without a value does not consume the argument after it, which
      then stops parsing as a non-option: "--quiet yes" returns 1 after
      raising the quiet flag. */
  lemma SwitchLeavesNextArgument(a: Args)
    ensures Parse(a, ["blitzping", "--quiet", "yes"])
            == Returned(a.(executableName := "blitzping", general := a.general.(optQuiet := true)), 1)
  {
    var argv := ["blitzping", "--quiet", "yes"];
    assert Cmdline.OptName(argv[1]) == "quiet";
    QuietIsFifth();
    assert NextStep(OPTIONS, argv, 1) == Take(OPTIONS[4], "", 2);
  }

  /** "quiet" is found at index 4, after the nameless entry and the three
      information options. */
  lemma QuietIsFifth()
    ensures FindFrom(OPTIONS, "quiet", 0) == Some(4)
    ensures OPTIONS[4] == OptionSpec('Q', "quiet", false, Quiet)
  {
    var t := OPTIONS;
    assert t[..5] == GENERAL_OPTIONS;
    assert t[4] == GENERAL_OPTIONS[4];
    assert FindFrom(t, "quiet", 4) == Some(4);
    assert !Cmdline.Matches("quiet", t[3].name) && !Cmdline.Matches("quiet", t[2].name);
    assert !Cmdline.Matches("quiet", t[1].name) && !Cmdline.Matches("quiet", t[0].name);
  }
}
