/** The TSC rate lookup of util.c: splicing "DDDD.ddd MHz" into kHz from a
    line of journalctl or dmesg output (get_tsc_khz_cmd), and the fallback
    chain proc file -> journal -> dmesg (get_tsc_khz). Opening the pipe,
    reading the line and closing the pipe are inputs. */
module TscKhz {
  import opened Common
  import opened Text

  /** What getline returned: end of file, a read error, or a line (with its
      trailing newline, if any); the length of the line is getline's l. */
  datatype LineRead = Eof | ReadError | Line(text: string)

  /** What one probe returned and what it stored into *tsc_khz, if it
      stored anything. */
  datatype Probe = Probe(ret: int, stored: Option<u32>)

  /** Size of get_tsc_khz_cmd's stack buffer `buf`. */
  const BUF_SIZE: nat := 16

  /** The bytes copied into buf: the l - 10 bytes after the leading space
      (the integer part) and the 3 bytes starting 8 before the end (the
      fraction), dropping the dot and " MHz\n". */
  function Splice(line: string): (buf: string)
    requires 11 <= |line| <= 22
    ensures |buf| == |line| - 7 && |buf| + 1 <= BUF_SIZE
    ensures buf[..|line| - 10] == line[1..|line| - 9]
    ensures buf[|line| - 10..] == line[|line| - 8..|line| - 5]
  {
    line[1..|line| - 9] + line[|line| - 8..|line| - 5]
  }

  /** get_tsc_khz_cmd after popen: 1 when the pipe cannot be opened; -1 on
      a read error or a line longer than 22 bytes; 0 without storing for
      end of file or a line shorter than 11 bytes; otherwise atoi of the
      spliced digits is stored (as uint32_t), and the result is 0 or, if
      pclose fails, -1. */
  function GetTscKhzCmd(popenOk: bool, read: LineRead, pcloseOk: bool): (r: Probe)
    ensures r.ret == 1 <==> !popenOk
    ensures r.ret == -1 || r.ret == 0 || r.ret == 1
    ensures r.stored.Some? <==> popenOk && read.Line? && 11 <= |read.text| <= 22
    ensures popenOk && read.ReadError? ==> r.ret == -1
    ensures popenOk && read.Line? && |read.text| > 22 ==> r.ret == -1
    ensures popenOk && (read.Eof? || (read.Line? && |read.text| < 11)) ==> r == Probe(0, None)
    ensures r.stored.Some? ==> (r.ret == 0 <==> pcloseOk)
    ensures r.stored.Some? ==> r.stored.value == ToU32(Atoi(Splice(read.text)))
  {
    if !popenOk then Probe(1, None)
    else match read
      case ReadError => Probe(-1, None)
      case Eof => Probe(0, None)
      case Line(text) =>
        if |text| > 22 then Probe(-1, None)
        else if |text| < 11 then Probe(0, None)
        else
          var khz := ToU32(Atoi(Splice(text)));
          Probe(if pcloseOk then 0 else -1, Some(khz))
  }

  /** The line the journal and dmesg pipelines produce:
      " " + D + "." + ddd + " MHz\n". */
  function MHzLine(d: string, ddd: string): string
  {
    " " + d + "." + ddd + " MHz\n"
  }

  /** For a line " D.ddd MHz\n" with 1 to 12 integer digits, the splice
      is D followed by ddd, and the stored value is D * 1000 + ddd: the
      frequency in kHz. */
  lemma SpliceMHzLine(d: string, ddd: string)
    requires 1 <= |d| <= 12 && AllDigits(d)
    requires |ddd| == 3 && AllDigits(ddd)
    ensures 11 <= |MHzLine(d, ddd)| <= 22
    ensures Splice(MHzLine(d, ddd)) == d + ddd
    ensures AllDigits(d + ddd)
    ensures Atoi(Splice(MHzLine(d, ddd))) == DigitsValue(d) * 1000 + DigitsValue(ddd)
  {
    var line := MHzLine(d, ddd);
    var l := |line|;
    assert line[1..l - 9] == d;
    assert line[l - 8..l - 5] == ddd;
    DigitsValueConcat(d, ddd);
    assert Pow10(3) == 1000;
    AtoiDigits(d + ddd, []);
    assert d + ddd + [] == d + ddd;
  }

  /** A successful journal read of " 2600.000 MHz\n" gives 2600000 kHz. */
  lemma GetTscKhzCmdExample()
    ensures GetTscKhzCmd(true, Line(" 2600.000 MHz\n"), true) == Probe(0, Some(2600000))
  {
    ExampleKhz();
  }

  lemma ExampleKhz()
    ensures 11 <= |" 2600.000 MHz\n"| <= 22
    ensures Atoi(Splice(" 2600.000 MHz\n")) == 2600000
  {
    var d, ddd := "2600", "000";
    assert " 2600.000 MHz\n" == MHzLine(d, ddd);
    assert DigitsValue(d) == 2600 by {
      assert d[..3] == "260" && "260"[..2] == "26" && "26"[..1] == "2" && "2"[..0] == "";
    }
    assert DigitsValue(ddd) == 0 by {
      assert ddd[..2] == "00" && "00"[..1] == "0" && "0"[..0] == "";
    }
    SpliceMHzLine(d, ddd);
  }

  /** *tsc_khz after a probe: the stored value, or the old one. */
  function After(p: Probe, khz: u32): (r: u32)
    ensures p.stored.None? ==> r == khz
  {
    if p.stored.Some? then p.stored.value else khz
  }

  /** A probe that succeeds and finds a rate. */
  predicate Found(p: Probe, khz: u32)
  {
    p.ret >= 0 && After(p, khz) != 0
  }

  /** A probe that succeeds but leaves the rate at zero. */
  predicate Empty(p: Probe, khz: u32)
  {
    p.ret >= 0 && After(p, khz) == 0
  }

  /** get_tsc_khz: the proc file first, then the journal while the rate is
      still 0, then dmesg while it is still 0. A negative return stops the
      chain and is returned; if all leave the rate at 0 the result is -1. */
  method GetTscKhz(khz0: u32, proc: Probe, journal: Probe, dmesg: Probe) returns (ret: int, khz: u32)
    ensures ret <= 0
    ensures ret == 0 ==> khz != 0
    ensures proc.ret < 0 ==> ret == proc.ret && khz == After(proc, khz0)
    ensures Found(proc, khz0) ==> ret == 0 && khz == After(proc, khz0)
    ensures Empty(proc, khz0) && journal.ret < 0 ==> ret == journal.ret && khz == After(journal, 0)
    ensures Empty(proc, khz0) && Found(journal, 0) ==> ret == 0 && khz == After(journal, 0)
    ensures Empty(proc, khz0) && Empty(journal, 0) && dmesg.ret < 0 ==>
      ret == dmesg.ret && khz == After(dmesg, 0)
    ensures Empty(proc, khz0) && Empty(journal, 0) && Found(dmesg, 0) ==>
      ret == 0 && khz == After(dmesg, 0)
    ensures Empty(proc, khz0) && Empty(journal, 0) && Empty(dmesg, 0) ==> ret == -1 && khz == 0
  {
    khz := After(proc, khz0);
    if proc.ret < 0 {
      return proc.ret, khz;
    }
    if khz == 0 {
      khz := After(journal, khz);
      if journal.ret < 0 {
        return journal.ret, khz;
      }
    }
    if khz == 0 {
      khz := After(dmesg, khz);
      if dmesg.ret < 0 {
        return dmesg.ret, khz;
      }
    }
    if khz == 0 {
      return -1, khz;
    }
    return 0, khz;
  }

  /** osjitter.c's own copy of the journal probe has no l < 11 guard: on
      empty output getline returns l = -1, which passes the l > 22 test,
      and the first copy length l - 1 - 8 - 1, converted to size_t, is
      2^64 - 11 bytes into a 16-byte buffer. */
  function OsjitterCopyLength(l: int): (n: nat)
    requires -1 <= l <= 22
  {
    (l - 10) % U64_LIMIT
  }

  lemma OsjitterEmptyOutputOverflows()
    ensures OsjitterCopyLength(-1) == U64_LIMIT - 11
    ensures OsjitterCopyLength(-1) + 3 + 1 > BUF_SIZE
  {
  }

  /** With util.c's guard every splice that runs copies l - 10 + 3 bytes
      plus the terminator, which fits the 16-byte buffer, and never runs
      for end of file. */
  lemma GuardedCopyFits(popenOk: bool, read: LineRead, pcloseOk: bool)
    requires GetTscKhzCmd(popenOk, read, pcloseOk).stored.Some?
    ensures read.Line? && 0 <= |read.text| - 10 && (|read.text| - 10) + 3 + 1 <= BUF_SIZE
  {
  }
}
