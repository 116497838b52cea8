/** osjitter.c's command line (parse_args): --cpu X or X-Y, -t, -d,
    --sched, --prio, --khz, -h/--help, and the defaults applied after the
    loop. */
module JitterArgs {
  import opened Common
  import opened Text

  /** CPU_SETSIZE of glibc: CPU_SET ignores CPU numbers at or above it. */
  const CPU_SETSIZE: nat := 1024

  /** The Args fields parse_args sets. sched_policy and sched_prio are C
      ints; the others are uint32_t except samples (uint64_t). */
  datatype Options = Options(
    cpuSet: set<int>,
    schedPolicy: int,
    schedPrio: int,
    runtimeS: u32,
    threshNs: u32,
    tscKhz: u32,
    samples: u64)

  /** *args = (const Args){0} */
  const Zero := Options({}, 0, 0, 0, 0, 0, 0)

  /** parse_args' result: 0 with the options, -1, or exit(0) after help. */
  datatype Parse = Parsed(opts: Options) | Invalid | ShowHelp

  predicate TakesOperand(flag: string)
  {
    flag == "--cpu" || flag == "-t" || flag == "-d" || flag == "--sched" || flag == "--prio" || flag == "--khz"
  }

  /** The CPUs an --cpu operand adds: for "X-Y" (split at the first '-')
      the range X..Y, refused when either end, as unsigned, is 1024 or
      more; otherwise the single CPU atoi(X), which CPU_SET ignores when it
      is outside 0..1023. */
  function CpuOperand(cpus: set<int>, arg: string): (r: Option<set<int>>)
    ensures r.Some? ==> cpus <= r.value
    ensures r.Some? ==> forall c :: c in r.value - cpus ==> 0 <= c < CPU_SETSIZE
  {
    match Find(arg, "-")
    case None =>
      var c := Atoi(arg);
      Some(if 0 <= c < CPU_SETSIZE then cpus + {c} else cpus)
    case Some(p) =>
      var b := ToU32(Atoi(arg[..p]));
      var e := ToU32(Atoi(arg[p + 1..]));
      if b >= CPU_SETSIZE || e >= CPU_SETSIZE then None
      else Some(cpus + Range(b, e))
  }

  /** The integers b..e (empty when e < b). */
  function Range(b: int, e: int): (r: set<int>)
    ensures forall k :: k in r <==> b <= k <= e
    decreases if e < b then 0 else e - b + 1
  {
    if e < b then {} else Range(b, e - 1) + {e}
  }

  /** The effect of one option with its operand; None when --cpu refuses
      its range. --sched also raises a zero priority to 1. */
  function ApplyOption(o: Options, flag: string, arg: string): (r: Option<Options>)
    requires TakesOperand(flag)
    ensures r.None? ==> flag == "--cpu"
  {
    if flag == "--cpu" then
      match CpuOperand(o.cpuSet, arg)
      case None => None
      case Some(cpus) => Some(o.(cpuSet := cpus))
    else if flag == "-t" then Some(o.(runtimeS := ToU32(Atoi(arg))))
    else if flag == "-d" then Some(o.(threshNs := ToU32(Atoi(arg))))
    else if flag == "--sched" then
      Some(o.(schedPolicy := Atoi(arg), schedPrio := if o.schedPrio == 0 then 1 else o.schedPrio))
    else if flag == "--prio" then Some(o.(schedPrio := Atoi(arg)))
    else Some(o.(tscKhz := ToU32(Atoi(arg))))
  }

  /** The defaults after the loop: 10 s, 100 ns, and runtime_s * 105000
      samples, multiplied in 32-bit unsigned arithmetic. */
  function Finish(o: Options): (r: Options)
    ensures r.runtimeS != 0 && r.threshNs != 0
    ensures o.runtimeS != 0 ==> r.runtimeS == o.runtimeS
    ensures o.threshNs != 0 ==> r.threshNs == o.threshNs
    ensures o.runtimeS == 0 ==> r.runtimeS == 10
    ensures o.threshNs == 0 ==> r.threshNs == 100
    ensures o.samples != 0 ==> r.samples == o.samples
    ensures o.samples == 0 ==> r.samples == ToU32(r.runtimeS * 105000)
    ensures r.cpuSet == o.cpuSet && r.schedPolicy == o.schedPolicy && r.schedPrio == o.schedPrio
    ensures r.tscKhz == o.tscKhz
  {
    var o1 := if o.runtimeS == 0 then o.(runtimeS := 10) else o;
    var o2 := if o1.threshNs == 0 then o1.(threshNs := 100) else o1;
    if o2.samples == 0 then o2.(samples := ToU32(o2.runtimeS * 105000)) else o2
  }

  /** The outcome of parsing argv[i..] with the options so far. */
  function ParseFrom(argv: seq<string>, i: nat, o: Options): Parse
    decreases |argv| - i
  {
    if i >= |argv| then Parsed(Finish(o))
    else if argv[i] == "-h" || argv[i] == "--help" then ShowHelp
    else if !TakesOperand(argv[i]) then Invalid
    else if i + 1 >= |argv| then Invalid
    else match ApplyOption(o, argv[i], argv[i + 1])
      case None => Invalid
      case Some(o') => ParseFrom(argv, i + 2, o')
  }

  /** What parse_args makes of argv (argv[0] is the program name). */
  function ParseArgsSpec(argv: seq<string>): Parse
  {
    ParseFrom(argv, 1, Zero)
  }

  /** parse_args: one pass over argv updating the options in place. */
  method ParseArgs(argv: seq<string>) returns (r: Parse)
    ensures r == ParseArgsSpec(argv)
  {
    var args := Zero;
    var i := 1;
    while i < |argv|
      invariant ParseFrom(argv, i, args) == ParseArgsSpec(argv)
      decreases |argv| - i
    {
      var flag := argv[i];
      if flag == "-h" || flag == "--help" {
        return ShowHelp;
      }
      if !TakesOperand(flag) {
        return Invalid;
      }
      i := i + 1;
      if i >= |argv| {
        return Invalid;
      }
      var arg := argv[i];
      if flag == "--cpu" {
        var p := Find(arg, "-");
        if p.Some? {
          var b := ToU32(Atoi(arg[..p.value]));
          var e := ToU32(Atoi(arg[p.value + 1..]));
          if b >= CPU_SETSIZE || e >= CPU_SETSIZE {
            return Invalid;
          }
          var cpus := AddRange(args.cpuSet, b, e);
          args := args.(cpuSet := cpus);
        } else {
          var c := Atoi(arg);
          if 0 <= c < CPU_SETSIZE {
            args := args.(cpuSet := args.cpuSet + {c});
          }
        }
      } else if flag == "-t" {
        args := args.(runtimeS := ToU32(Atoi(arg)));
      } else if flag == "-d" {
        args := args.(threshNs := ToU32(Atoi(arg)));
      } else if flag == "--sched" {
        args := args.(schedPolicy := Atoi(arg));
        if args.schedPrio == 0 {
          args := args.(schedPrio := 1);
        }
      } else if flag == "--prio" {
        args := args.(schedPrio := Atoi(arg));
      } else {
        args := args.(tscKhz := ToU32(Atoi(arg)));
      }
      i := i + 1;
    }
    return Parsed(Finish(args));
  }

  /** for (k = b; k <= e; ++k) CPU_SET(k, &cpu_set); */
  method AddRange(cpus: set<int>, b: nat, e: nat) returns (r: set<int>)
    ensures r == cpus + Range(b, e)
  {
    r := cpus;
    var k := b;
    while k <= e
      invariant b <= k && (k <= e + 1 || k == b)
      invariant r == cpus + Range(b, k - 1)
    {
      r := r + {k};
      k := k + 1;
    }
    assert Range(b, k - 1) == Range(b, e);
  }

  /** Without options: no CPUs, 10 s, 100 ns, 1050000 samples. */
  lemma DefaultOptions(prog: string)
    ensures ParseArgsSpec([prog]) == Parsed(Options({}, 0, 0, 10, 100, 0, 1050000))
  {
  }

  /** The sample count is computed in 32 bits: -t 40905 gives
      40905 * 105000 - 2^32 = 57704 samples. */
  lemma SamplesWrapAround()
    ensures Finish(Zero.(runtimeS := 40905)).samples == 57704
  {
  }

  /** An option that needs an operand but comes last is an error. */
  lemma MissingOperand(argv: seq<string>, o: Options)
    requires |argv| > 0 && TakesOperand(argv[|argv| - 1])
    ensures ParseFrom(argv, |argv| - 1, o) == Invalid
  {
  }

  /** An argument that is no option is an error; -h and --help end the
      parse with the help text. */
  lemma UnknownOrHelp(argv: seq<string>, i: nat, o: Options)
    requires i < |argv| && !TakesOperand(argv[i])
    ensures ParseFrom(argv, i, o) == (if argv[i] == "-h" || argv[i] == "--help" then ShowHelp else Invalid)
  {
  }

  /** --sched sets the priority to 1 only if it is still 0; --prio after
      it overrides, and --prio before it is kept. */
  lemma SchedDefaultsPriority(o: Options, policy: string)
    ensures ApplyOption(o, "--sched", policy).value.schedPrio == (if o.schedPrio == 0 then 1 else o.schedPrio)
  {
  }

  /** "--cpu B-E" with decimal B and E selects exactly B..E when both are
      below 1024, and is refused otherwise. */
  lemma CpuRangeOperand(cpus: set<int>, b: nat, e: nat)
    requires b < 0x8000_0000 && e < 0x8000_0000
    ensures var arg := Decimal(b) + "-" + Decimal(e);
      CpuOperand(cpus, arg) == if b < CPU_SETSIZE && e < CPU_SETSIZE then Some(cpus + Range(b, e)) else None
  {
    var db := Decimal(b);
    var de := Decimal(e);
    var arg := db + "-" + de;
    FirstDashAfterDigits(db, de);
    assert arg[..|db|] == db;
    assert arg[|db| + 1..] == de;
    AtoiDecimal(b);
    AtoiDecimal(e);
  }

  /** In digits + "-" + rest the first '-' is right after the digits. */
  lemma FirstDashAfterDigits(d: string, rest: string)
    requires AllDigits(d)
    ensures Find(d + "-" + rest, "-") == Some(|d|)
  {
    var s := d + "-" + rest;
    assert IsAt(s, "-", |d|);
    forall j | 0 <= j < |d|
      ensures !IsAt(s, "-", j)
    {
      assert s[j] == d[j];
    }
  }

  /** A single "--cpu C" adds C when it is a CPU number below 1024. */
  lemma SingleCpuOperand(cpus: set<int>, c: nat)
    ensures CpuOperand(cpus, Decimal(c)) == Some(if c < CPU_SETSIZE then cpus + {c} else cpus)
  {
    NoDashInDigits(Decimal(c));
    AtoiDecimal(c);
  }

  lemma NoDashInDigits(d: string)
    requires AllDigits(d)
    ensures Find(d, "-") == None
  {
    forall j | 0 <= j <= |d|
      ensures !IsAt(d, "-", j)
    {
      if j < |d| {
        assert IsDigit(d[j]);
        assert d[j..j + 1] == [d[j]];
      }
    }
  }
}
