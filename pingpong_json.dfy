/** print_json of pingpong.c: the raw (unsorted) deltas of both threads,
    converted to nanoseconds, as a JSON array of two arrays of integers.
    The text written to the file is the result; a reader for that text
    shows that nothing is lost. */
module PingPongJson {
  import opened Common
  import opened Text
  import opened UtilH
  import PingPong

  /** What precedes value number i of a thread: " " for the first,
      ", " for every later one. */
  function Sep(i: nat): (s: string)
    ensures |s| > 0 && !IsDigit(s[0]) && s[0] != ']'
    ensures forall q :: 0 <= q < |s| ==> s[q] == ' ' || s[q] == ','
  {
    if i == 0 then " " else ", "
  }

  /** Values i.. of a thread, each after its separator. */
  function BodyFrom(vals: seq<nat>, i: nat): string
    requires i <= |vals|
    decreases |vals| - i
  {
    if i == |vals| then "" else Sep(i) + Decimal(vals[i]) + BodyFrom(vals, i + 1)
  }

  /** One thread's line: "    [" then " v0", ", v1", ... and "]". */
  function ThreadText(vals: seq<nat>): string
  {
    "    [" + BodyFrom(vals, 0) + "]"
  }

  /** The whole file: "[\n", thread 0, ",\n", thread 1, "\n]\n". */
  function JsonText(a: seq<nat>, b: seq<nat>): string
  {
    "[\n" + ThreadText(a) + ",\n" + ThreadText(b) + "\n]\n"
  }

  /** The printed values: mul_u64_u32_shr of each raw delta. */
  function Converted(raw: seq<u32>, mult: u32, shift: nat): (v: seq<nat>)
    requires shift < 128
    ensures |v| == |raw|
    ensures forall q :: 0 <= q < |raw| ==> v[q] == MulU64U32Shr(raw[q], mult, shift)
  {
    seq(|raw|, q requires 0 <= q < |raw| => MulU64U32Shr(raw[q], mult, shift) as nat)
  }

  /** Appending a value extends the body by its separator and digits. */
  lemma {:induction false} BodyAppend(s: seq<nat>, x: nat, i: nat)
    requires i <= |s|
    ensures BodyFrom(s + [x], i) == BodyFrom(s, i) + Sep(|s|) + Decimal(x)
    decreases |s| - i
  {
    var t := s + [x];
    if i < |s| {
      BodyAppend(s, x, i + 1);
      assert t[i] == s[i];
      assert BodyFrom(t, i) == Sep(i) + Decimal(s[i]) + BodyFrom(t, i + 1);
      assert BodyFrom(s, i) == Sep(i) + Decimal(s[i]) + BodyFrom(s, i + 1);
      Regroup(Sep(i) + Decimal(s[i]), BodyFrom(t, i + 1), BodyFrom(s, i + 1), Sep(|s|), Decimal(x));
    } else {
      assert BodyFrom(t, i + 1) == "";
      assert BodyFrom(s, i) == "";
      assert BodyFrom(t, i) == Sep(i) + Decimal(x) + "";
    }
  }

  lemma Regroup(head: string, bt: string, bs: string, sep: string, d: string)
    requires bt == bs + sep + d
    ensures head + bt == head + bs + sep + d
  {
  }

  /** The body of the first j + 1 values extends that of the first j. */
  lemma BodyStep(vals: seq<nat>, j: nat)
    requires j < |vals|
    ensures BodyFrom(vals[..j + 1], 0) == BodyFrom(vals[..j], 0) + Sep(j) + Decimal(vals[j])
  {
    assert vals[..j + 1] == vals[..j] + [vals[j]];
    BodyAppend(vals[..j], vals[j], 0);
  }

  /** The lines of one thread: the first value after "    [", then the
      loop over the others. */
  method AppendThread(out: string, raw: array<u32>, size: nat, mult: u32, shift: nat) returns (o: string)
    requires size <= raw.Length && shift < 128
    ensures o == out + ThreadText(Converted(raw[..size], mult, shift))
  {
    ghost var vals := Converted(raw[..size], mult, shift);
    o := out + "    [";
    if size == 0 {
      assert BodyFrom(vals, 0) == [];
      CloseLine(out, vals);
      o := o + "]";
      return;
    }
    ghost var prefix := o;
    var d := Decimal(MulU64U32Shr(raw[0], mult, shift));
    ExtendBody(prefix, vals, 0, d);
    o := o + " " + d;
    var j := 1;
    while j < size
      invariant 1 <= j <= size
      invariant o == prefix + BodyFrom(vals[..j], 0)
    {
      d := Decimal(MulU64U32Shr(raw[j], mult, shift));
      ExtendBody(prefix, vals, j, d);
      o := o + ", " + d;
      j := j + 1;
    }
    assert vals[..j] == vals;
    CloseLine(out, vals);
    o := o + "]";
  }

  /** Closing the bracket completes the thread's line. */
  lemma CloseLine(out: string, vals: seq<nat>)
    ensures out + "    [" + BodyFrom(vals, 0) + "]" == out + ThreadText(vals)
  {
  }

  /** The line so far, extended by value j's separator and digits, is the
      line of the first j + 1 values. */
  lemma ExtendBody(prefix: string, vals: seq<nat>, j: nat, d: string)
    requires j < |vals| && d == Decimal(vals[j])
    ensures prefix + BodyFrom(vals[..j], 0) + Sep(j) + d == prefix + BodyFrom(vals[..j + 1], 0)
  {
    BodyStep(vals, j);
  }

  /** print_json for the two workers. */
  method PrintJson(mult: u32, shift: nat, w0: PingPong.Worker, w1: PingPong.Worker) returns (out: string)
    requires shift < 128
    requires w0.dsSize <= w0.rawDs.Length && w1.dsSize <= w1.rawDs.Length
    ensures out == JsonText(Converted(w0.rawDs[..w0.dsSize], mult, shift), Converted(w1.rawDs[..w1.dsSize], mult, shift))
  {
    var ws := [w0, w1];
    out := "[\n";
    var i := 0;
    while i < 2
      invariant i <= 2
      invariant i == 0 ==> out == "[\n"
      invariant i == 1 ==> out == "[\n" + ThreadText(Converted(w0.rawDs[..w0.dsSize], mult, shift)) + ",\n"
      invariant i == 2 ==>
        out == "[\n" + ThreadText(Converted(w0.rawDs[..w0.dsSize], mult, shift)) + ",\n"
          + ThreadText(Converted(w1.rawDs[..w1.dsSize], mult, shift))
    {
      var w := ws[i];
      out := AppendThread(out, w.rawDs, w.dsSize, mult, shift);
      if i == 0 {
        out := out + ",\n";
      }
      i := i + 1;
    }
    out := out + "\n]\n";
  }

  /** Reads the separator of value i and the run of digits after it,
      giving the value and the text that follows. */
  function ReadItem(s: string, i: nat): (r: Option<(nat, string)>)
    ensures r.Some? ==> |r.value.1| < |s|
  {
    var sep := Sep(i);
    if !StartsWith(s, sep) then None
    else
      var t := s[|sep|..];
      var d := DigitRun(t);
      if d == 0 then None else Some((DigitsValue(t[..d]), t[d..]))
  }

  /** Reads values i.. back: one item after another to the end of the
      text. */
  function ReadBody(s: string, i: nat): Option<seq<nat>>
    decreases |s|
  {
    if s == [] then Some([])
    else match ReadItem(s, i)
      case None => None
      case Some((v, rest)) =>
        match ReadBody(rest, i + 1)
        case None => None
        case Some(vs) => Some([v] + vs)
  }

  /** Reads one thread's line back. */
  function ReadThread(s: string): Option<seq<nat>>
  {
    if |s| >= 6 && s[..5] == "    [" && s[|s| - 1] == ']' then ReadBody(s[5..|s| - 1], 0) else None
  }

  /** Reads the whole file back: the first thread's line ends at the first
      ']'. */
  function ReadJson(s: string): Option<(seq<nat>, seq<nat>)>
  {
    if |s| < 5 || s[..2] != "[\n" || s[|s| - 3..] != "\n]\n" then None
    else
      var mid := s[2..|s| - 3];
      match Find(mid, "]")
      case None => None
      case Some(e) =>
        if e + 3 > |mid| || mid[e + 1..e + 3] != ",\n" then None
        else match (ReadThread(mid[..e + 1]), ReadThread(mid[e + 3..]))
          case (Some(a), Some(b)) => Some((a, b))
          case _ => None
  }

  /** A body starts with its first separator, so never with a digit. */
  lemma BodyStart(vals: seq<nat>, i: nat)
    requires i < |vals|
    ensures BodyFrom(vals, i)[0] == Sep(i)[0]
  {
  }

  /** A separator and a decimal read back as the value, up to the next
      non-digit. */
  lemma ReadItemCons(i: nat, v: nat, rest: string)
    requires rest == [] || !IsDigit(rest[0])
    ensures ReadItem(Sep(i) + Decimal(v) + rest, i) == Some((v, rest))
  {
    var sep := Sep(i);
    var dec := Decimal(v);
    var s := sep + dec + rest;
    assert s[..|sep|] == sep;
    var t := s[|sep|..];
    assert t == dec + rest;
    DigitRunOf(dec, rest);
    assert t[..|dec|] == dec;
    assert t[|dec|..] == rest;
  }

  /** The reader recovers the values of a body. */
  lemma {:induction false} ReadBodyFrom(vals: seq<nat>, i: nat)
    requires i <= |vals|
    ensures ReadBody(BodyFrom(vals, i), i) == Some(vals[i..])
    decreases |vals| - i
  {
    if i < |vals| {
      ReadBodyFrom(vals, i + 1);
      ReadBodyFromStep(vals, i);
    } else {
      assert vals[i..] == [];
    }
  }

  /** The induction step of ReadBodyFrom. */
  lemma ReadBodyFromStep(vals: seq<nat>, i: nat)
    requires i < |vals|
    requires ReadBody(BodyFrom(vals, i + 1), i + 1) == Some(vals[i + 1..])
    ensures ReadBody(BodyFrom(vals, i), i) == Some(vals[i..])
  {
    BodyUnfold(vals, i);
    ReadBodyCons(i, vals[i], BodyFrom(vals, i + 1), vals[i + 1..]);
    DropCons(vals, i);
  }

  lemma DropCons(vals: seq<nat>, i: nat)
    requires i < |vals|
    ensures vals[i..] == [vals[i]] + vals[i + 1..]
  {
  }

  /** A body is its first item followed by a body that starts with a
      separator. */
  lemma BodyUnfold(vals: seq<nat>, i: nat)
    requires i < |vals|
    ensures BodyFrom(vals, i) == Sep(i) + Decimal(vals[i]) + BodyFrom(vals, i + 1)
    ensures BodyFrom(vals, i + 1) == [] || !IsDigit(BodyFrom(vals, i + 1)[0])
  {
    if i + 1 < |vals| {
      BodyStart(vals, i + 1);
    }
  }

  /** A separator and a decimal in front of a readable rest read back as
      one more value. */
  lemma ReadBodyCons(i: nat, v: nat, rest: string, vs: seq<nat>)
    requires rest == [] || !IsDigit(rest[0])
    requires ReadBody(rest, i + 1) == Some(vs)
    ensures ReadBody(Sep(i) + Decimal(v) + rest, i) == Some([v] + vs)
  {
    ReadItemCons(i, v, rest);
    ReadBodyStep(Sep(i) + Decimal(v) + rest, rest, i, v, vs);
  }

  /** An item followed by a readable rest reads back as one more value. */
  lemma ReadBodyStep(body: string, rest: string, i: nat, v: nat, vs: seq<nat>)
    requires ReadItem(body, i) == Some((v, rest))
    requires ReadBody(rest, i + 1) == Some(vs)
    ensures ReadBody(body, i) == Some([v] + vs)
  {
    assert body != [];
  }

  /** One thread's line reads back as its values. */
  lemma ThreadRoundTrip(vals: seq<nat>)
    ensures ReadThread(ThreadText(vals)) == Some(vals)
  {
    var body := BodyFrom(vals, 0);
    var s := ThreadText(vals);
    assert s[..5] == "    [";
    assert s[5..|s| - 1] == body;
    ReadBodyFrom(vals, 0);
  }

  /** No ']' occurs inside a body. */
  lemma {:induction false} NoBracketInBody(vals: seq<nat>, i: nat)
    requires i <= |vals|
    ensures forall q :: 0 <= q < |BodyFrom(vals, i)| ==> BodyFrom(vals, i)[q] != ']'
    decreases |vals| - i
  {
    if i < |vals| {
      NoBracketInBody(vals, i + 1);
      var sep := Sep(i);
      var dec := Decimal(vals[i]);
      var rest := BodyFrom(vals, i + 1);
      var s := BodyFrom(vals, i);
      forall q | 0 <= q < |s|
        ensures s[q] != ']'
      {
        if q < |sep| {
          assert s[q] == sep[q];
        } else if q < |sep| + |dec| {
          assert s[q] == dec[q - |sep|];
          assert IsDigit(dec[q - |sep|]);
        } else {
          assert s[q] == rest[q - |sep| - |dec|];
        }
      }
    }
  }

  /** The first ']' of a file is the one closing thread 0's line. */
  lemma FirstBracket(a: seq<nat>, tail: string)
    ensures Find(ThreadText(a) + tail, "]") == Some(|ThreadText(a)| - 1)
  {
    var body := BodyFrom(a, 0);
    var s := ThreadText(a) + tail;
    var e := |ThreadText(a)| - 1;
    NoBracketInBody(a, 0);
    assert s[e..e + 1] == "]";
    forall j | 0 <= j < e
      ensures !IsAt(s, "]", j)
    {
      if j >= 5 {
        assert s[j] == body[j - 5];
      } else {
        assert s[j] == ' ' || s[j] == '[';
      }
    }
    assert IsAt(s, "]", e);
    var r := Find(s, "]");
    assert r.Some?;
    assert !(r.value < e) && !(e < r.value);
  }

  /** print_json's output reads back as the two threads' values. */
  lemma JsonRoundTrip(a: seq<nat>, b: seq<nat>)
    ensures ReadJson(JsonText(a, b)) == Some((a, b))
  {
    var s := JsonText(a, b);
    var ta := ThreadText(a);
    var tb := ThreadText(b);
    assert s[..2] == "[\n";
    assert s[|s| - 3..] == "\n]\n";
    var mid := s[2..|s| - 3];
    assert mid == ta + (",\n" + tb);
    FirstBracket(a, ",\n" + tb);
    var e := |ta| - 1;
    assert mid[e + 1..e + 3] == ",\n";
    assert mid[..e + 1] == ta;
    assert mid[e + 3..] == tb;
    ThreadRoundTrip(a);
    ThreadRoundTrip(b);
  }

  /** An example: thread 0 with values 5 and 12, thread 1 without any. */
  lemma JsonExample()
    ensures JsonText([5, 12], []) == "[\n    [ 5, 12],\n    []\n]\n"
  {
    assert Decimal(5) == "5";
    assert Decimal(12) == "12" by {
      assert Decimal(1) == "1";
    }
  }
}
