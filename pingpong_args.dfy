/** pingpong.c's command line (parse_args): --khz, -n, -k, -p, --pin
    THREAD CPU, --json, the method flags, -h/--help, and the defaults
    applied after the loop. */
module PingPongArgs {
  import opened Common
  import opened Text

  /** enum Method: how the two threads notify each other. */
  datatype Method = Spin | SpinPause | SpinPauseMore | CondVar | Null | Pipe | Futex

  /** The Args fields parse_args sets (mult and shift are filled in later
      by the calibration). pin0 and pin1 are pin[0] and pin[1]: 0 means
      unpinned, otherwise the CPU plus one. */
  datatype Args = Args(
    tscKhz: u32,
    n: u32,
    k: u32,
    p: u32,
    pin0: u32,
    pin1: u32,
    json: bool,
    mode: Method)

  /** *args = (const Args){0}; METHOD_SPIN is the enum's 0. */
  const Zero := Args(0, 0, 0, 0, 0, 0, false, Spin)

  /** parse_args' outcome: 0 with the arguments, -1, exit(0) after the
      help text, or exit(1) for an unknown argument. */
  datatype Parse = Parsed(args: Args) | Invalid | ShowHelp | Unknown

  /** The flags followed by one number. */
  predicate NumberFlag(flag: string)
  {
    flag == "--khz" || flag == "-n" || flag == "-k" || flag == "-p"
  }

  /** The method a method flag selects. */
  function MethodFlag(flag: string): (r: Option<Method>)
    ensures r.Some? ==> r.value != SpinPauseMore
    ensures r.Some? ==> !NumberFlag(flag) && flag != "--pin" && flag != "--json"
  {
    if flag == "--spin" then Some(Spin)
    else if flag == "--spin-pause" then Some(SpinPause)
    else if flag == "--cv" then Some(CondVar)
    else if flag == "--null" then Some(Null)
    else if flag == "--pipe" then Some(Pipe)
    else if flag == "--futex" then Some(Futex)
    else None
  }

  /** The field a number flag sets, to the operand's atoi as unsigned. */
  function SetNumber(a: Args, flag: string, v: u32): (r: Args)
    requires NumberFlag(flag)
  {
    if flag == "--khz" then a.(tscKhz := v)
    else if flag == "-n" then a.(n := v)
    else if flag == "-k" then a.(k := v)
    else a.(p := v)
  }

  /** pin[j] = cpu + 1, in unsigned arithmetic. */
  function SetPin(a: Args, j: u32, cpu: u32): (r: Args)
    requires j <= 1
    ensures PinOf(r, j) == ToU32(cpu as int + 1)
    ensures PinOf(r, 1 - j) == PinOf(a, 1 - j)
  {
    if j == 0 then a.(pin0 := ToU32(cpu as int + 1)) else a.(pin1 := ToU32(cpu as int + 1))
  }

  function PinOf(a: Args, j: u32): u32
    requires j <= 1
  {
    if j == 0 then a.pin0 else a.pin1
  }

  /** The CPU a thread is pinned to, as spin_pingpong reads pin[i]: none
      for 0, otherwise pin[i] - 1. */
  function PinnedCpu(pin: u32): (r: Option<u32>)
    ensures r.None? <==> pin == 0
    ensures r.Some? ==> r.value as int + 1 == pin as int
  {
    if pin == 0 then None else Some(pin - 1)
  }

  /** The defaults after the loop: 10^6 iterations, 1000 pauses, and
      --spin-pause with a nonzero -p turned into METHOD_SPIN_PAUSE_MORE. */
  function Finish(a: Args): (r: Args)
    ensures r.n != 0 && r.k != 0
    ensures a.n != 0 ==> r.n == a.n
    ensures a.k != 0 ==> r.k == a.k
    ensures a.n == 0 ==> r.n == 1000000
    ensures a.k == 0 ==> r.k == 1000
    ensures r.mode == SpinPauseMore <==> a.mode == SpinPauseMore || (a.mode == SpinPause && a.p != 0)
    ensures r.mode != SpinPauseMore ==> r.mode == a.mode
    ensures r.tscKhz == a.tscKhz && r.p == a.p && r.pin0 == a.pin0 && r.pin1 == a.pin1 && r.json == a.json
  {
    var a1 := if a.n == 0 then a.(n := 1000 * 1000) else a;
    var a2 := if a1.k == 0 then a1.(k := 1000) else a1;
    if a2.mode == SpinPause && a2.p != 0 then a2.(mode := SpinPauseMore) else a2
  }

  /** The outcome of parsing argv[i..] with the arguments so far. */
  function ParseFrom(argv: seq<string>, i: nat, a: Args): Parse
    decreases |argv| - i
  {
    if i >= |argv| then Parsed(Finish(a))
    else
      var flag := argv[i];
      if flag == "-h" || flag == "--help" then ShowHelp
      else if NumberFlag(flag) then
        if i + 1 >= |argv| then Invalid
        else ParseFrom(argv, i + 2, SetNumber(a, flag, ToU32(Atoi(argv[i + 1]))))
      else if flag == "--pin" then
        if i + 2 >= |argv| then Invalid
        else
          var j := ToU32(Atoi(argv[i + 1]));
          var cpu := ToU32(Atoi(argv[i + 2]));
          if j > 1 then Invalid else ParseFrom(argv, i + 3, SetPin(a, j, cpu))
      else if flag == "--json" then ParseFrom(argv, i + 1, a.(json := true))
      else match MethodFlag(flag)
        case Some(m) => ParseFrom(argv, i + 1, a.(mode := m))
        case None => Unknown
  }

  /** What parse_args makes of argv (argv[0] is the program name). */
  function ParseArgsSpec(argv: seq<string>): Parse
  {
    ParseFrom(argv, 1, Zero)
  }

  /** parse_args: one pass over argv updating the arguments in place. */
  method ParseArgs(argv: seq<string>) returns (r: Parse)
    ensures r == ParseArgsSpec(argv)
  {
    var args := Zero;
    var i := 1;
    while i < |argv|
      invariant ParseFrom(argv, i, args) == ParseArgsSpec(argv)
      decreases |argv| - i
    {
      var flag := argv[i];
      if flag == "-h" || flag == "--help" {
        return ShowHelp;
      } else if NumberFlag(flag) {
        i := i + 1;
        if i >= |argv| {
          return Invalid;
        }
        NumberStep(argv, i - 1, args);
        args := SetNumber(args, flag, ToU32(Atoi(argv[i])));
      } else if flag == "--pin" {
        if i + 2 >= |argv| {
          return Invalid;
        }
        i := i + 1;
        var j := ToU32(Atoi(argv[i]));
        i := i + 1;
        var cpu := ToU32(Atoi(argv[i]));
        PinStep(argv, i - 2, args);
        if j > 1 {
          return Invalid;
        }
        args := SetPin(args, j, cpu);
      } else if flag == "--json" {
        JsonStep(argv, i, args);
        args := args.(json := true);
      } else {
        var m := MethodFlag(flag);
        if m.None? {
          return Unknown;
        }
        MethodStep(argv, i, args);
        args := args.(mode := m.value);
      }
      i := i + 1;
    }
    args := Finish(args);
    return Parsed(args);
  }

  /** One step of the loop for a number flag with its operand. */
  lemma NumberStep(argv: seq<string>, i: nat, a: Args)
    requires i + 1 < |argv| && NumberFlag(argv[i])
    ensures ParseFrom(argv, i, a) == ParseFrom(argv, i + 2, SetNumber(a, argv[i], ToU32(Atoi(argv[i + 1]))))
  {
  }

  /** One step of the loop for "--pin" with its two operands. */
  lemma PinStep(argv: seq<string>, i: nat, a: Args)
    requires i + 2 < |argv| && argv[i] == "--pin"
    ensures ParseFrom(argv, i, a) ==
      var j := ToU32(Atoi(argv[i + 1]));
      if j > 1 then Invalid else ParseFrom(argv, i + 3, SetPin(a, j, ToU32(Atoi(argv[i + 2]))))
  {
  }

  /** One step of the loop for "--json". */
  lemma JsonStep(argv: seq<string>, i: nat, a: Args)
    requires i < |argv| && argv[i] == "--json"
    ensures ParseFrom(argv, i, a) == ParseFrom(argv, i + 1, a.(json := true))
  {
  }

  /** One step of the loop for a method flag. */
  lemma MethodStep(argv: seq<string>, i: nat, a: Args)
    requires i < |argv| && MethodFlag(argv[i]).Some?
    ensures ParseFrom(argv, i, a) == ParseFrom(argv, i + 1, a.(mode := MethodFlag(argv[i]).value))
  {
  }

  /** Without arguments: 10^6 iterations, 1000 pauses, spinning, unpinned. */
  lemma DefaultArgs(prog: string)
    ensures ParseArgsSpec([prog]) == Parsed(Args(0, 1000000, 1000, 0, 0, 0, false, Spin))
  {
  }

  /** Of two method flags in a row the second wins. */
  lemma LastMethodWins(argv: seq<string>, i: nat, a: Args)
    requires i + 1 < |argv|
    requires MethodFlag(argv[i]).Some? && MethodFlag(argv[i + 1]).Some?
    ensures ParseFrom(argv, i, a) == ParseFrom(argv, i + 2, a.(mode := MethodFlag(argv[i + 1]).value))
  {
  }

  /** --spin-pause with -p 5 selects the variant with more pauses, and
      -p alone leaves the default method. */
  lemma SpinPauseWithPauses()
    ensures ParseArgsSpec(["pingpong", "--spin-pause", "-p", "5"]).args.mode == SpinPauseMore
    ensures ParseArgsSpec(["pingpong", "-p", "5"]).args.mode == Spin
  {
    assert Atoi("5") == 5 by {
      AtoiDigits("5", []);
      assert "5" + [] == "5";
      assert "5"[..0] == [];
    }
  }

  /** "--pin J CPU" with J in 0..1 stores CPU + 1 into pin[J] and
      continues after the two operands; the thread is then pinned to CPU,
      except for CPU 4294967295 (also written -1), where the increment
      wraps to 0 and the thread stays unpinned. */
  lemma PinStores(argv: seq<string>, i: nat, a: Args, j: nat, cpu: nat)
    requires i + 2 < |argv| && argv[i] == "--pin"
    requires j <= 1 && argv[i + 1] == Decimal(j)
    requires cpu < 0x8000_0000 && argv[i + 2] == Decimal(cpu)
    ensures ParseFrom(argv, i, a) == ParseFrom(argv, i + 3, SetPin(a, j, cpu))
    ensures PinnedCpu(PinOf(SetPin(a, j, cpu), j)) == Some(cpu)
  {
    AtoiDecimal(j);
    AtoiDecimal(cpu);
  }

  /** A thread number above 1 makes parse_args fail. */
  lemma PinThreadOutOfRange(argv: seq<string>, i: nat, a: Args, j: nat)
    requires i + 2 < |argv| && argv[i] == "--pin"
    requires 1 < j < 0x8000_0000 && argv[i + 1] == Decimal(j)
    ensures ParseFrom(argv, i, a) == Invalid
  {
    AtoiDecimal(j);
  }

  /** "--pin 0 -1": atoi gives -1, as unsigned 2^32 - 1, plus one wraps to
      0, so thread 0 stays unpinned. */
  lemma PinMinusOneUnpinned(a: Args)
    ensures PinnedCpu(PinOf(SetPin(a, 0, ToU32(Atoi("-1"))), 0)).None?
  {
    var s := "-1";
    assert SpaceRun(s) == 0;
    assert s[0..] == s;
    var u := s[1..];
    assert u == "1";
    AtoiDigits("1", []);
    assert "1" + [] == "1";
    assert DigitRun(u) == 1;
    assert u[..1] == "1";
    assert Atoi(s) == -1;
  }

  /** A flag that needs an operand but comes last is an error. */
  lemma MissingOperand(argv: seq<string>, a: Args)
    requires |argv| > 0
    requires NumberFlag(argv[|argv| - 1]) || argv[|argv| - 1] == "--pin"
    ensures ParseFrom(argv, |argv| - 1, a) == Invalid
  {
  }

  /** "--pin" needs two operands. */
  lemma PinNeedsTwoOperands(argv: seq<string>, a: Args)
    requires |argv| > 1 && argv[|argv| - 2] == "--pin"
    ensures ParseFrom(argv, |argv| - 2, a) == Invalid
  {
  }

  /** Anything that is not an option ends the program with status 1;
      -h and --help with the help text. */
  lemma UnknownOrHelp(argv: seq<string>, i: nat, a: Args)
    requires i < |argv| && !NumberFlag(argv[i]) && argv[i] != "--pin" && argv[i] != "--json"
    requires MethodFlag(argv[i]).None?
    ensures ParseFrom(argv, i, a) == (if argv[i] == "-h" || argv[i] == "--help" then ShowHelp else Unknown)
  {
  }
}
