/** helper/bench2tidy.py: merges the CSV output of Google Benchmark runs
    on several hosts into one table with a host column. The contents of
    the input files are given as their lines (each with its line end, as
    Python's file iteration yields them); the text written to the output
    file is the result. An exception (ValueError from rindex) ends the
    run; the model reports it as a failed outcome with the text written
    up to that point. */
module BenchTidy {
  import opened Common
  import opened Text

  /** The column header Google Benchmark writes before the data lines. */
  const HEADER := "name,iterations,real_time,cpu_time,time_unit"

  /** The header of the merged table. */
  const OUT_HEADER := "host,name,iterations,real_ns,cpu_ns\n"

  /** The name suffixes of aggregate rows (repetition statistics). */
  const AGGREGATE_KEYS: seq<string> := ["_mean\"", "_median\"", "_stddev\""]

  /** The marker before the time unit's columns: the data kept is what
      precedes its last occurrence. */
  const UNIT := ",ns,"

  /** A line is an aggregate row when it contains one of the keys. */
  predicate Aggregate(line: string)
  {
    exists q :: 0 <= q < |AGGREGATE_KEYS| && Contains(line, AGGREGATE_KEYS[q])
  }

  /** is_not_a_point: the loop over the three keys, true at the first one
      found in the line. */
  method IsNotAPoint(line: string) returns (b: bool)
    ensures b <==> Aggregate(line)
  {
    var q := 0;
    while q < |AGGREGATE_KEYS|
      invariant q <= |AGGREGATE_KEYS|
      invariant forall p :: 0 <= p < q ==> !Contains(line, AGGREGATE_KEYS[p])
    {
      if Find(line, AGGREGATE_KEYS[q]).Some? {
        return true;
      }
      q := q + 1;
    }
    return false;
  }

  /** A text without the first character of k does not contain k. */
  lemma MissingFirstChar(s: string, k: string)
    requires |k| > 0 && forall p :: 0 <= p < |s| ==> s[p] != k[0]
    ensures !Contains(s, k)
  {
    forall j | 0 <= j <= |s|
      ensures !IsAt(s, k, j)
    {
      if j + |k| <= |s| {
        assert s[j..j + |k|][0] == s[j];
      }
    }
  }

  /** A row of a benchmark without '_' in its name is no aggregate; the
      mean of BM_getpid is. */
  lemma AggregateExamples()
    ensures !Aggregate("\"getpid\",1000,52.1,52.0,ns,,,,,\n")
    ensures Aggregate("\"BM_getpid_mean\",3,52.1,52.0,ns,,,,,\n")
  {
    PointExample();
    MeanExample();
  }

  lemma PointExample()
    ensures !Aggregate("\"getpid\",1000,52.1,52.0,ns,,,,,\n")
  {
    var point := "\"getpid\",1000,52.1,52.0,ns,,,,,\n";
    assert forall p :: 0 <= p < |point| ==> point[p] != '_';
    forall q | 0 <= q < |AGGREGATE_KEYS|
      ensures !Contains(point, AGGREGATE_KEYS[q])
    {
      assert AGGREGATE_KEYS[q][0] == '_';
      MissingFirstChar(point, AGGREGATE_KEYS[q]);
    }
  }

  lemma MeanExample()
    ensures Aggregate("\"BM_getpid_mean\",3,52.1,52.0,ns,,,,,\n")
  {
    var name, key, rest := "\"BM_getpid", "_mean\"", ",3,52.1,52.0,ns,,,,,\n";
    assert name + key + rest == "\"BM_getpid_mean\",3,52.1,52.0,ns,,,,,\n";
    KeyMakesAggregate(name, 0, rest);
  }

  /** Any line holding one of the keys is an aggregate row. */
  lemma KeyMakesAggregate(name: string, q: nat, rest: string)
    requires q < |AGGREGATE_KEYS|
    ensures Aggregate(name + AGGREGATE_KEYS[q] + rest)
  {
    var key := AGGREGATE_KEYS[q];
    var line := name + key + rest;
    assert line[|name|..|name| + |key|] == key;
    assert IsAt(line, key, |name|);
  }

  datatype LineOut = Skip | Write(text: string) | Fail

  function Step(line: string, host: string): (r: LineOut)
    ensures r.Skip? <==> Aggregate(line)
    ensures r.Fail? <==> !Aggregate(line) && !Contains(line, UNIT)
    ensures r.Write? ==>
      exists i :: IsAt(line, UNIT, i) && (forall j :: i < j ==> !IsAt(line, UNIT, j)) &&
        r.text == host + "," + line[..i] + "\n"
  {
    if Aggregate(line) then Skip
    else match RFind(line, UNIT)
      case None => Fail
      case Some(i) => Write(host + "," + line[..i] + "\n")
  }

  /** The result of a run: the text written and whether it completed. */
  datatype Outcome = Outcome(written: string, ok: bool)

  /** The data lines in order: skipped, written, or the end of the run. */
  function Emit(data: seq<string>, host: string): Outcome
  {
    if data == [] then Outcome("", true)
    else match Step(data[0], host)
      case Skip => Emit(data[1..], host)
      case Fail => Outcome("", false)
      case Write(t) =>
        var rest := Emit(data[1..], host);
        Outcome(t + rest.written, rest.ok)
  }

  /** The index of the first line starting with the header, if any. */
  function HeaderAt(lines: seq<string>): (r: Option<nat>)
    ensures r.Some? ==> r.value < |lines| && StartsWith(lines[r.value], HEADER)
    ensures r.Some? ==> forall j :: 0 <= j < r.value ==> !StartsWith(lines[j], HEADER)
    ensures r.None? ==> forall j :: 0 <= j < |lines| ==> !StartsWith(lines[j], HEADER)
  {
    if lines == [] then None
    else if StartsWith(lines[0], HEADER) then Some(0)
    else match HeaderAt(lines[1..])
      case None => None
      case Some(h) => Some(h + 1)
  }

  /** What dump_csv writes for one file: nothing up to and including the
      first header line, then the data lines after it. */
  function DumpSpec(lines: seq<string>, host: string): Outcome
  {
    match HeaderAt(lines)
    case None => Outcome("", true)
    case Some(h) => Emit(lines[h + 1..], host)
  }

  /** Emitting one more line: after a failure nothing changes. */
  lemma {:induction false} EmitSnoc(data: seq<string>, line: string, host: string)
    ensures Emit(data + [line], host) ==
      var e := Emit(data, host);
      if !e.ok then e
      else match Step(line, host)
        case Skip => e
        case Fail => Outcome(e.written, false)
        case Write(t) => Outcome(e.written + t, true)
  {
    if data == [] {
      assert [line][1..] == [];
    } else {
      assert (data + [line])[1..] == data[1..] + [line];
      EmitSnoc(data[1..], line, host);
    }
  }

  /** dump_csv: the two-state loop over the lines. State 0 waits for the
      header; state 1, never left, skips aggregates and writes the host
      and the columns before the last ",ns,". */
  method DumpCsv(lines: seq<string>, host: string) returns (r: Outcome)
    ensures r == DumpSpec(lines, host)
  {
    var state := 0;
    var out := "";
    ghost var h: nat := 0;
    var k := 0;
    while k < |lines|
      invariant k <= |lines|
      invariant state == 0 || state == 1
      invariant state == 0 ==> out == "" && (HeaderAt(lines).None? || k <= HeaderAt(lines).value)
      invariant state == 1 ==>
        HeaderAt(lines) == Some(h) && h < k && Emit(lines[h + 1..k], host) == Outcome(out, true)
    {
      var line := lines[k];
      if state == 0 {
        if StartsWith(line, HEADER) {
          state := 1;
          h := k;
          assert lines[k + 1..k + 1] == [];
        }
      } else {
        ghost var seen := lines[h + 1..k];
        SliceSnoc(lines, h + 1, k);
        EmitSnoc(seen, line, host);
        var o := DataLine(line, host);
        if o.Fail? {
          SliceSplit(lines, h + 1, k + 1);
          EmitFailed(seen + [line], lines[k + 1..], host);
          return Outcome(out, false);
        } else if o.Write? {
          out := out + o.text;
        }
      }
      k := k + 1;
    }
    if state == 1 {
      assert lines[h + 1..k] == lines[h + 1..];
    }
    return Outcome(out, true);
  }

  lemma SliceSnoc(lines: seq<string>, a: nat, k: nat)
    requires a <= k < |lines|
    ensures lines[a..k + 1] == lines[a..k] + [lines[k]]
  {
  }

  lemma SliceSplit(lines: seq<string>, a: nat, k: nat)
    requires a <= k <= |lines|
    ensures lines[a..] == lines[a..k] + lines[k..]
  {
  }

  /** The body of dump_csv's loop in state 1 for one line: skip an
      aggregate, fail without ",ns,", otherwise write the host and the
      columns before the last ",ns,". */
  method DataLine(line: string, host: string) returns (r: LineOut)
    ensures r == Step(line, host)
  {
    var skip := IsNotAPoint(line);
    if skip {
      return Skip;
    }
    var i := RFind(line, UNIT);
    if i.None? {
      return Fail;
    }
    return Write(host + "," + line[..i.value] + "\n");
  }

  /** The first line starting with the header is where HeaderAt points. */
  lemma {:induction false} HeaderFirst(lines: seq<string>, k: nat)
    requires k < |lines| && StartsWith(lines[k], HEADER)
    requires forall j :: 0 <= j < k ==> !StartsWith(lines[j], HEADER)
    ensures HeaderAt(lines) == Some(k)
  {
    if k > 0 {
      assert !StartsWith(lines[0], HEADER);
      HeaderFirst(lines[1..], k - 1);
    }
  }

  /** After a failure the remaining lines change nothing. */
  lemma {:induction false} EmitFailed(data: seq<string>, more: seq<string>, host: string)
    requires !Emit(data, host).ok
    ensures Emit(data + more, host) == Emit(data, host)
  {
    assert data != [];
    assert (data + more)[0] == data[0];
    assert (data + more)[1..] == data[1..] + more;
    if !Step(data[0], host).Fail? {
      EmitFailed(data[1..], more, host);
    }
  }

  /** Without a header line nothing is written. */
  lemma NoHeaderNoOutput(lines: seq<string>, host: string)
    requires forall j :: 0 <= j < |lines| ==> !StartsWith(lines[j], HEADER)
    ensures DumpSpec(lines, host) == Outcome("", true)
  {
  }

  /** Once in state 1, a second header line is just another data line:
      everything after the first header is treated alike. */
  lemma HeaderOnce(pre: seq<string>, hdr: string, data: seq<string>, host: string)
    requires forall j :: 0 <= j < |pre| ==> !StartsWith(pre[j], HEADER)
    requires StartsWith(hdr, HEADER)
    ensures DumpSpec(pre + [hdr] + data, host) == Emit(data, host)
  {
    var lines := pre + [hdr] + data;
    HeaderFirst(lines, |pre|);
    assert lines[|pre| + 1..] == data;
  }

  /** A data line without ",ns," ends the run (rindex raises). */
  lemma MissingUnitFails(line: string, data: seq<string>, host: string)
    requires !Aggregate(line) && !Contains(line, UNIT)
    ensures Emit([line] + data, host) == Outcome("", false)
  {
  }

  /** A kept line is written as host + "," + its columns before the last
      ",ns,", and the following lines come after it. */
  lemma PointWritten(cols: string, tail: string, data: seq<string>, host: string)
    requires !Aggregate(cols + UNIT + tail)
    requires !Contains(tail, UNIT) && !StartsWith(tail, "ns,")
    ensures Emit([cols + UNIT + tail] + data, host) ==
      var rest := Emit(data, host);
      Outcome(host + "," + cols + "\n" + rest.written, rest.ok)
  {
    var line := cols + UNIT + tail;
    var i := |cols|;
    assert line[i..i + 4] == UNIT;
    forall j | i < j
      ensures !IsAt(line, UNIT, j)
    {
      if j + 4 <= |line| {
        if j >= i + 4 {
          assert line[j..j + 4] == tail[j - i - 4..j - i];
          assert !IsAt(tail, UNIT, j - i - 4);
        } else if j == i + 3 {
          assert line[i + 4..] == tail;
          assert line[j..j + 4][1..] == tail[..3];
          assert tail[..3] != "ns,";
        } else {
          assert line[j] == UNIT[j - i];
          assert line[j..j + 4][0] == line[j];
        }
      }
    }
    assert IsAt(line, UNIT, i);
    var r := RFind(line, UNIT);
    assert r.Some?;
    assert !(r.value < i) && !(i < r.value);
    assert line[..i] == cols;
    assert ([line] + data)[1..] == data;
  }

  /** host = fn[fn.rindex('-') + 1:-4]: None when the name has no '-'
      (rindex raises); otherwise Python's slice, which is empty when its
      start is not below its end and whose end -4 counts from the end of
      the name (0 for names shorter than 4). */
  function HostOf(fn: string): (r: Option<string>)
    ensures r.None? <==> !Contains(fn, "-")
    ensures r.Some? ==> |r.value| <= |fn|
  {
    match RFind(fn, "-")
    case None => None
    case Some(p) =>
      var b := p + 1;
      var e := if |fn| >= 4 then |fn| - 4 else 0;
      Some(if b < e then fn[b..e] else "")
  }

  /** The name pattern the benchmark playbook uses, PREFIX-HOST.csv with
      no '-' in HOST, gives HOST. */
  lemma HostOfName(prefix: string, host: string)
    requires !Contains(host, "-")
    ensures HostOf(prefix + "-" + host + ".csv") == Some(host)
  {
    var fn := prefix + "-" + host + ".csv";
    var p := |prefix|;
    assert IsAt(fn, "-", p);
    forall j | p < j
      ensures !IsAt(fn, "-", j)
    {
      if j < p + 1 + |host| {
        assert fn[p + 1..p + 1 + |host|] == host;
        assert fn[j] == host[j - p - 1];
        assert !IsAt(host, "-", j - p - 1);
        assert host[j - p - 1..j - p] == [host[j - p - 1]];
        assert fn[j..j + 1] == [fn[j]];
      } else if j < |fn| {
        assert fn[j] == ".csv"[j - p - 1 - |host|];
        assert fn[j..j + 1] == [fn[j]];
      }
    }
    assert RFind(fn, "-") == Some(p);
    assert fn[p + 1..|fn| - 4] == host;
  }

  /** A name whose last '-' is among the final four characters gives an
      empty host. */
  lemma HostOfShortName()
    ensures HostOf("a-b.c") == Some("")
  {
    var fn := "a-b.c";
    assert IsAt(fn, "-", 1);
    forall j | 1 < j
      ensures !IsAt(fn, "-", j)
    {
      if j < |fn| {
        assert fn[j..j + 1] == [fn[j]];
      }
    }
    assert RFind(fn, "-") == Some(1);
  }

  /** What main writes for the files, each given as its name and its
      lines: the header, then each file in argument order; a failure
      (no '-' in a name, or a data line without ",ns,") ends the run. */
  function MergeSpec(files: seq<(string, seq<string>)>): (r: Outcome)
    ensures StartsWith(r.written, OUT_HEADER)
  {
    if files == [] then Outcome(OUT_HEADER, true)
    else
      var prev := MergeSpec(files[..|files| - 1]);
      if !prev.ok then prev
      else
        var (fn, lines) := files[|files| - 1];
        match HostOf(fn)
        case None => Outcome(prev.written, false)
        case Some(host) =>
          var d := DumpSpec(lines, host);
          assert (prev.written + d.written)[..|OUT_HEADER|] == prev.written[..|OUT_HEADER|];
          Outcome(prev.written + d.written, d.ok)
  }

  /** main: the header, then the loop over the file names. */
  method Merge(files: seq<(string, seq<string>)>) returns (r: Outcome)
    ensures r == MergeSpec(files)
  {
    var out := OUT_HEADER;
    var q := 0;
    while q < |files|
      invariant q <= |files|
      invariant MergeSpec(files[..q]) == Outcome(out, true)
    {
      assert files[..q + 1][..q] == files[..q];
      var (fn, lines) := files[q];
      var host := HostOf(fn);
      if host.None? {
        assert files[..q + 1][q] == files[q];
        PrefixFailure(files, q + 1);
        return Outcome(out, false);
      }
      var d := DumpCsv(lines, host.value);
      out := out + d.written;
      if !d.ok {
        PrefixFailure(files, q + 1);
        return Outcome(out, false);
      }
      q := q + 1;
    }
    assert files[..q] == files;
    return Outcome(out, true);
  }

  /** After a failure on the q-th file the later files change nothing. */
  lemma {:induction false} PrefixFailure(files: seq<(string, seq<string>)>, q: nat)
    requires 0 < q <= |files| && !MergeSpec(files[..q]).ok
    ensures MergeSpec(files) == MergeSpec(files[..q])
    decreases |files| - q
  {
    if q < |files| {
      assert files[..|files| - 1][..q] == files[..q];
      PrefixFailure(files[..|files| - 1], q);
    } else {
      assert files[..q] == files;
    }
  }

  /** Files are written in argument order: each completed file's rows
      follow those of the files before it. */
  lemma FilesInOrder(files: seq<(string, seq<string>)>, fn: string, lines: seq<string>, host: string)
    requires MergeSpec(files).ok && HostOf(fn) == Some(host)
    ensures MergeSpec(files + [(fn, lines)]) ==
      Outcome(MergeSpec(files).written + DumpSpec(lines, host).written, DumpSpec(lines, host).ok)
  {
    assert (files + [(fn, lines)])[..|files|] == files;
  }
}
