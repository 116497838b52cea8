/** The parse half of read_proc_sched in osjitter.c: finding the
    nr_involuntary_switches counter in the text of /proc/PID/task/TID/sched.
    Opening and reading the file are not modelled; the bytes read are the
    input. */
module ProcSched {
  import opened Common
  import opened Text

  const KEY := "nr_involuntary_switches"

  /** The three ways the parse fails, each with its own message. */
  datatype SchedError = KeyMissing | NoLineEnd | NoValueStart

  /** The text after the first occurrence of the key (buf must hold it). */
  function AfterKey(buf: string): (rest: string)
    requires Contains(buf, KEY)
    ensures |KEY| + |rest| <= |buf| && buf[|buf| - |rest| - |KEY|..] == KEY + rest
  {
    buf[Find(buf, KEY).value + |KEY|..]
  }

  /** The rest of the key's line: up to the first newline after the key. */
  function KeyLine(buf: string): (line: string)
    requires Contains(buf, KEY) && Contains(AfterKey(buf), "\n")
    ensures !Contains(line, "\n")
    ensures StartsWith(AfterKey(buf), line + "\n")
  {
    var rest := AfterKey(buf);
    var e := Find(rest, "\n").value;
    forall j | 0 <= j <= e
      ensures !IsAt(rest[..e], "\n", j)
    {
      if j < e {
        assert !IsAt(rest, "\n", j);
        assert rest[..e][j..j + 1] == rest[j..j + 1];
      }
    }
    assert rest[..e + 1] == rest[..e] + "\n";
    rest[..e]
  }

  /** The value: after the first occurrence of the key, up to the next
      newline, the text after the last space is read with atol. Each
      failure has its own message in the source. */
  function ParseSched(buf: string): (r: Result<int, SchedError>)
    ensures r == Err(KeyMissing) <==> !Contains(buf, KEY)
    ensures r == Err(NoLineEnd) <==> Contains(buf, KEY) && !Contains(AfterKey(buf), "\n")
    ensures r == Err(NoValueStart) <==>
      Contains(buf, KEY) && Contains(AfterKey(buf), "\n") && !Contains(KeyLine(buf), " ")
    ensures r.Ok? ==>
      exists m :: 0 <= m < |KeyLine(buf)| && IsAt(KeyLine(buf), " ", m) &&
        (forall j :: m < j ==> !IsAt(KeyLine(buf), " ", j)) &&
        r.value == Atoi(KeyLine(buf)[m + 1..])
  {
    match Find(buf, KEY)
    case None => Err(KeyMissing)
    case Some(p) =>
      var rest := buf[p + |KEY|..];
      match Find(rest, "\n")
      case None => Err(NoLineEnd)
      case Some(e) =>
        match RFind(rest[..e], " ")
        case None => Err(NoValueStart)
        case Some(m) => Ok(Atoi(rest[..e][m + 1..]))
  }

  /** A well-formed counter line: the key, then text without a newline
      (the padding and the colon), a space and the decimal count, then a
      newline. When the key does not occur earlier, the value is that
      count, whatever follows. */
  lemma ParseSchedLine(pre: string, pad: string, v: nat, post: string)
    requires forall j :: 0 <= j < |pre| ==> !IsAt(pre + KEY + pad + " " + Decimal(v) + "\n" + post, KEY, j)
    requires !Contains(pad, "\n")
    ensures ParseSched(pre + KEY + pad + " " + Decimal(v) + "\n" + post) == Ok(v)
  {
    var d := Decimal(v);
    var buf := pre + KEY + pad + " " + d + "\n" + post;
    assert buf[|pre|..|pre| + |KEY|] == KEY;
    assert IsAt(buf, KEY, |pre|);
    assert Find(buf, KEY) == Some(|pre|);
    var rest := buf[|pre| + |KEY|..];
    var line := pad + " " + d;
    assert rest == line + "\n" + post;
    NoNewlineInDigits(pad, d);
    NewlineAfter(line, post);
    assert rest[..|line|] == line;
    LastSpaceBeforeDigits(pad, d);
    assert line[|pad| + 1..] == d;
    AtoiDigits(d, []);
    assert d + [] == d;
  }

  /** pad + " " + digits has no newline when pad has none. */
  lemma NoNewlineInDigits(pad: string, d: string)
    requires !Contains(pad, "\n") && AllDigits(d)
    ensures !Contains(pad + " " + d, "\n")
  {
    var s := pad + " " + d;
    forall j | 0 <= j <= |s|
      ensures !IsAt(s, "\n", j)
    {
      if j < |pad| {
        assert s[j..j + 1] == pad[j..j + 1];
        assert !IsAt(pad, "\n", j);
      } else if j == |pad| {
        assert s[j] == ' ';
      } else if j < |s| {
        assert s[j] == d[j - |pad| - 1];
      }
    }
  }

  /** The first newline of line + "\n" + post, when line has none, ends
      line. */
  lemma NewlineAfter(line: string, post: string)
    requires !Contains(line, "\n")
    ensures Find(line + "\n" + post, "\n") == Some(|line|)
  {
    var s := line + "\n" + post;
    assert IsAt(s, "\n", |line|);
    forall j | 0 <= j < |line|
      ensures !IsAt(s, "\n", j)
    {
      assert s[j..j + 1] == line[j..j + 1];
      assert !IsAt(line, "\n", j);
    }
  }

  /** In pad + " " + digits the last space is the one before the digits. */
  lemma LastSpaceBeforeDigits(pad: string, d: string)
    requires AllDigits(d)
    ensures RFind(pad + " " + d, " ") == Some(|pad|)
  {
    var s := pad + " " + d;
    assert IsAt(s, " ", |pad|);
    forall j | |pad| < j
      ensures !IsAt(s, " ", j)
    {
      if j < |s| {
        assert s[j] == d[j - |pad| - 1];
        assert IsDigit(s[j]);
      }
    }
  }
}
