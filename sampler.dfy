/** The per-core measurement of osjitter.c (worker_main): successive reads
    of the time-stamp counter, each gap above the threshold counted as an
    interruption, recorded into a fixed-capacity delta array while room
    remains, summed, and the smallest main-loop gap kept as the loop-time
    baseline; then the drain that subtracts the baseline from the recorded
    deltas and sorts them.

    The counter reads are an input sequence; the spin barriers around the
    measurement are not modelled. */
module Sampler {
  import opened Common
  import opened UtilH
  import Stats

  /** The bookkeeping of worker_main after some number of counter reads:
      i, tsc_total_int, tsc_overflow, tsc_delta_min and the recorded prefix
      ds[0..min(i, n)). */
  datatype Tally = Tally(count: nat, total: u64, overflow: u64, deltaMin: u64, stored: seq<u32>)

  const Init := Tally(0, 0, 0, UINT64_MAX, [])

  /** ds[i] = delta > UINT32_MAX ? UINT32_MAX : delta */
  function Saturate(delta: u64): (r: u32)
    ensures r <= delta
    ensures delta <= UINT32_MAX ==> r == delta
    ensures delta > UINT32_MAX ==> r == UINT32_MAX
  {
    if delta > UINT32_MAX then UINT32_MAX else delta
  }

  /** The gap between two counter reads. The unrolled first iteration keeps
      it in 64 bits; the main loop stores it into a uint32_t. */
  function Delta(prev: u64, t: u64, first: bool): (r: u64)
    ensures !first ==> r < U32_LIMIT
  {
    if first then ToU64(t as int - prev as int) else ToU32(t as int - prev as int)
  }

  /** One loop body: a gap above the threshold is counted and summed; it
      is recorded while i < n, and otherwise the first such read is kept
      as the overflow time stamp. Every gap takes part in the minimum. */
  function Record(s: Tally, delta: u64, t: u64, thresh: u32, n: nat): Tally
  {
    var s1 :=
      if delta > thresh then
        s.(count := s.count + 1,
           total := ToU64(s.total + delta),
           overflow := if s.count >= n && s.overflow == 0 then t else s.overflow,
           stored := if s.count < n then s.stored + [Saturate(delta)] else s.stored)
      else s;
    s1.(deltaMin := if delta < s.deltaMin then delta else s.deltaMin)
  }

  /** The bookkeeping after the reads ts: the first read is the unrolled
      iteration, whose minimum is thrown away; the others are the main
      loop. */
  function Sampling(start: u64, thresh: u32, n: nat, ts: seq<u64>): Tally
    decreases |ts|
  {
    if |ts| == 0 then Init
    else if |ts| == 1 then Record(Init, Delta(start, ts[0], true), ts[0], thresh, n).(deltaMin := UINT64_MAX)
    else Record(Sampling(start, thresh, n, ts[..|ts| - 1]), Delta(ts[|ts| - 2], ts[|ts| - 1], false), ts[|ts| - 1], thresh, n)
  }

  // ----- an independent description of what the sampling computes -----

  /** The gap ending at each read, as the loop that handles it sees it. */
  function Gaps(start: u64, ts: seq<u64>): (d: seq<u64>)
    ensures |d| == |ts|
    ensures |ts| > 0 ==> d[0] == Delta(start, ts[0], true)
    ensures forall j :: 1 <= j < |ts| ==> d[j] == Delta(ts[j - 1], ts[j], false)
  {
    seq(|ts|, j requires 0 <= j < |ts| => GapAt(start, ts, j))
  }

  function GapAt(start: u64, ts: seq<u64>, j: nat): u64
    requires j < |ts|
  {
    if j == 0 then Delta(start, ts[0], true) else Delta(ts[j - 1], ts[j], false)
  }

  /** How many gaps lie above the threshold. */
  function CountAbove(d: seq<u64>, thresh: u32): (r: nat)
    ensures r <= |d|
  {
    if |d| == 0 then 0
    else CountAbove(d[..|d| - 1], thresh) + (if d[|d| - 1] > thresh then 1 else 0)
  }

  /** The exact sum of the gaps above the threshold. */
  function SumAbove(d: seq<u64>, thresh: u32): nat
  {
    if |d| == 0 then 0
    else SumAbove(d[..|d| - 1], thresh) + (if d[|d| - 1] > thresh then d[|d| - 1] else 0)
  }

  /** The gaps above the threshold, in order, saturated to 32 bits. */
  function SatAbove(d: seq<u64>, thresh: u32): (r: seq<u32>)
    ensures |r| == CountAbove(d, thresh)
    ensures forall c :: 0 <= c < |r| ==> r[c] > thresh || r[c] == UINT32_MAX
  {
    if |d| == 0 then []
    else SatAbove(d[..|d| - 1], thresh) + (if d[|d| - 1] > thresh then [Saturate(d[|d| - 1])] else [])
  }

  lemma GapsPrefix(start: u64, ts: seq<u64>)
    requires |ts| > 0
    ensures Gaps(start, ts[..|ts| - 1]) == Gaps(start, ts)[..|ts| - 1]
  {
  }

  /** i counts the gaps above the threshold. */
  lemma {:induction false} SamplingCount(start: u64, thresh: u32, n: nat, ts: seq<u64>)
    ensures Sampling(start, thresh, n, ts).count == CountAbove(Gaps(start, ts), thresh)
    decreases |ts|
  {
    var d := Gaps(start, ts);
    if |ts| == 1 {
      assert d[..0] == [];
    } else if |ts| > 1 {
      SamplingCount(start, thresh, n, ts[..|ts| - 1]);
      GapsPrefix(start, ts);
    }
  }

  /** tsc_total_int is the sum of the gaps above the threshold, modulo
      2^64. */
  lemma {:induction false} SamplingTotal(start: u64, thresh: u32, n: nat, ts: seq<u64>)
    ensures Sampling(start, thresh, n, ts).total == SumAbove(Gaps(start, ts), thresh) % U64_LIMIT
    decreases |ts|
  {
    var d := Gaps(start, ts);
    if |ts| == 1 {
      assert d[..0] == [];
      var g := d[0];
      assert SumAbove(d, thresh) == if g > thresh then g as nat else 0;
      RecordTotal(Init, g, ts[0], thresh, n);
      ModSmall(SumAbove(d, thresh), U64_LIMIT);
    } else if |ts| > 1 {
      var ts' := ts[..|ts| - 1];
      SamplingTotal(start, thresh, n, ts');
      SamplingLast(start, thresh, n, ts);
      var d' := Gaps(start, ts');
      var last := d[|d| - 1];
      var s' := Sampling(start, thresh, n, ts');
      assert d[..|d| - 1] == d';
      assert SumAbove(d, thresh) == SumAbove(d', thresh) + (if last > thresh then last else 0);
      RecordTotal(s', last, ts[|ts| - 1], thresh, n);
      if last > thresh {
        ModAddLeft(SumAbove(d', thresh), last, U64_LIMIT);
      }
    }
  }

  /** A gap above the threshold is added to the total modulo 2^64; any
      other leaves it. */
  lemma RecordTotal(s: Tally, delta: u64, t: u64, thresh: u32, n: nat)
    ensures Record(s, delta, t, thresh, n).total
      == if delta > thresh then (s.total as int + delta as int) % U64_LIMIT else s.total as int
  {
  }

  /** The reads after the first are the main loop: each is one more
      Record with its gap. */
  lemma SamplingLast(start: u64, thresh: u32, n: nat, ts: seq<u64>)
    requires |ts| > 1
    ensures Gaps(start, ts[..|ts| - 1]) == Gaps(start, ts)[..|ts| - 1]
    ensures Sampling(start, thresh, n, ts)
      == Record(Sampling(start, thresh, n, ts[..|ts| - 1]), Gaps(start, ts)[|ts| - 1], ts[|ts| - 1], thresh, n)
  {
    GapsPrefix(start, ts);
  }

  /** ds holds the first n gaps above the threshold, saturated, in order. */
  lemma {:induction false} SamplingStored(start: u64, thresh: u32, n: nat, ts: seq<u64>)
    ensures var s := Sampling(start, thresh, n, ts);
      && |s.stored| == Min(s.count, n)
      && s.count == CountAbove(Gaps(start, ts), thresh)
      && s.stored == SatAbove(Gaps(start, ts), thresh)[..|s.stored|]
    decreases |ts|
  {
    var d := Gaps(start, ts);
    SamplingCount(start, thresh, n, ts);
    if |ts| == 1 {
      assert d[..0] == [];
    } else if |ts| > 1 {
      var ts' := ts[..|ts| - 1];
      SamplingStored(start, thresh, n, ts');
      SamplingCount(start, thresh, n, ts');
      GapsPrefix(start, ts);
    }
  }

  /** Every recorded delta is above the threshold, or saturated. */
  lemma StoredAboveThreshold(start: u64, thresh: u32, n: nat, ts: seq<u64>)
    ensures var s := Sampling(start, thresh, n, ts);
      forall c :: 0 <= c < |s.stored| ==> s.stored[c] > thresh || s.stored[c] == UINT32_MAX
  {
    SamplingStored(start, thresh, n, ts);
  }

  /** The baseline is the minimum over the main-loop gaps only: the first
      gap is left out, and with no main-loop gap it stays UINT64_MAX. */
  lemma {:induction false} DeltaMinIsMainLoopMinimum(start: u64, thresh: u32, n: nat, ts: seq<u64>)
    ensures var s := Sampling(start, thresh, n, ts);
      var d := Gaps(start, ts);
      && (|ts| <= 1 ==> s.deltaMin == UINT64_MAX)
      && (forall j :: 1 <= j < |ts| ==> s.deltaMin <= d[j])
      && (|ts| >= 2 ==> exists j :: 1 <= j < |ts| && s.deltaMin == d[j])
    decreases |ts|
  {
    if |ts| > 1 {
      var ts' := ts[..|ts| - 1];
      DeltaMinIsMainLoopMinimum(start, thresh, n, ts');
      DeltaMinStep(start, thresh, n, ts);
      var d := Gaps(start, ts);
      var d' := Gaps(start, ts');
      var m := Sampling(start, thresh, n, ts).deltaMin;
      var m' := Sampling(start, thresh, n, ts').deltaMin;
      forall j | 1 <= j < |ts|
        ensures m <= d[j]
      {
        if j < |ts| - 1 {
          assert d[j] == d'[j];
        }
      }
      if m == d[|ts| - 1] {
      } else {
        var j' :| 1 <= j' < |ts'| && m' == d'[j'];
        assert m == d[j'];
      }
    }
  }

  /** A main-loop read lowers the baseline to its gap when the gap is
      smaller. */
  lemma DeltaMinStep(start: u64, thresh: u32, n: nat, ts: seq<u64>)
    requires |ts| >= 2
    ensures var last := Gaps(start, ts)[|ts| - 1];
      var m' := Sampling(start, thresh, n, ts[..|ts| - 1]).deltaMin;
      Sampling(start, thresh, n, ts).deltaMin == (if last < m' then last else m')
    ensures Gaps(start, ts[..|ts| - 1]) == Gaps(start, ts)[..|ts| - 1]
    ensures |ts| == 2 ==> Sampling(start, thresh, n, ts[..|ts| - 1]).deltaMin == UINT64_MAX
  {
    GapsPrefix(start, ts);
  }

  /** No overflow time stamp while the buffer has room; a nonzero one means
      more gaps were counted than recorded. */
  lemma {:induction false} OverflowOnlyWhenFull(start: u64, thresh: u32, n: nat, ts: seq<u64>)
    ensures var s := Sampling(start, thresh, n, ts);
      && (s.count <= n ==> s.overflow == 0)
      && (s.overflow != 0 ==> s.count > n)
    decreases |ts|
  {
    if |ts| > 1 {
      OverflowOnlyWhenFull(start, thresh, n, ts[..|ts| - 1]);
    }
  }

  /** The overflow time stamp is set once: a later read never replaces it. */
  lemma {:induction false} OverflowKept(start: u64, thresh: u32, n: nat, ts: seq<u64>, m: nat)
    requires 1 <= m <= |ts|
    requires Sampling(start, thresh, n, ts[..m]).overflow != 0
    ensures Sampling(start, thresh, n, ts).overflow == Sampling(start, thresh, n, ts[..m]).overflow
    decreases |ts|
  {
    if m < |ts| {
      var ts' := ts[..|ts| - 1];
      assert ts'[..m] == ts[..m];
      OverflowKept(start, thresh, n, ts', m);
    } else {
      assert ts[..m] == ts;
    }
  }

  /** Read j ends a gap above the threshold found when at least n gaps
      had already been counted, and its time stamp is o. */
  predicate OverflowWitness(start: u64, thresh: u32, n: nat, ts: seq<u64>, j: nat, o: u64)
  {
    j < |ts| && ts[j] == o && Gaps(start, ts)[j] > thresh && CountAbove(Gaps(start, ts)[..j], thresh) >= n
  }

  /** The overflow time stamp is the read that ends a counted gap found
      with at least n gaps already counted. */
  lemma {:induction false} OverflowIsCountedRead(start: u64, thresh: u32, n: nat, ts: seq<u64>)
    ensures var o := Sampling(start, thresh, n, ts).overflow;
      o != 0 ==> exists j :: 0 <= j < |ts| && OverflowWitness(start, thresh, n, ts, j, o)
    decreases |ts|
  {
    var o := Sampling(start, thresh, n, ts).overflow;
    if |ts| > 0 && o != 0 {
      var ts' := ts[..|ts| - 1];
      if |ts| > 1 && Sampling(start, thresh, n, ts').overflow != 0 {
        OverflowIsCountedRead(start, thresh, n, ts');
        var j :| 0 <= j < |ts'| && OverflowWitness(start, thresh, n, ts', j, o);
        WitnessExtends(start, thresh, n, ts, j, o);
      } else {
        OverflowSetByLast(start, thresh, n, ts);
      }
    }
  }

  lemma WitnessExtends(start: u64, thresh: u32, n: nat, ts: seq<u64>, j: nat, o: u64)
    requires |ts| > 1 && OverflowWitness(start, thresh, n, ts[..|ts| - 1], j, o)
    ensures OverflowWitness(start, thresh, n, ts, j, o)
  {
    GapsPrefix(start, ts);
    var d := Gaps(start, ts);
    var d' := Gaps(start, ts[..|ts| - 1]);
    assert d'[..j] == d[..j];
  }

  lemma OverflowSetByLast(start: u64, thresh: u32, n: nat, ts: seq<u64>)
    requires |ts| > 0 && Sampling(start, thresh, n, ts).overflow != 0
    requires |ts| == 1 || Sampling(start, thresh, n, ts[..|ts| - 1]).overflow == 0
    ensures OverflowWitness(start, thresh, n, ts, |ts| - 1, Sampling(start, thresh, n, ts).overflow)
  {
    var ts' := ts[..|ts| - 1];
    SamplingCount(start, thresh, n, ts');
    GapsPrefix(start, ts);
    if |ts| == 1 {
      assert Gaps(start, ts)[..0] == [];
    }
  }

  /** The recorded main-loop gaps are never below the baseline, so the
      drain's subtraction does not wrap for them. (The gap recorded by the
      unrolled first iteration may lie below the baseline.) */
  lemma {:induction false} MainLoopStoredAtLeastBaseline(start: u64, thresh: u32, n: nat, ts: seq<u64>)
    requires |ts| >= 1
    ensures var s := Sampling(start, thresh, n, ts);
      var first := |Sampling(start, thresh, n, ts[..1]).stored|;
      first <= |s.stored| &&
      forall c :: first <= c < |s.stored| ==> s.stored[c] >= s.deltaMin
    decreases |ts|
  {
    if |ts| == 1 {
      assert ts[..1] == ts;
    } else {
      var ts' := ts[..|ts| - 1];
      assert ts'[..1] == ts[..1];
      MainLoopStoredAtLeastBaseline(start, thresh, n, ts');
    }
  }

  /** In the main loop a gap of 2^32 + 50 ticks is seen as 50 ticks: with a
      threshold of 100 it is not counted. */
  lemma TruncatedGapExample()
    ensures Sampling(0, 100, 10, [1000, 1000 + U32_LIMIT + 50]).count == 1
    ensures Gaps(0, [1000, 1000 + U32_LIMIT + 50])[1] == 50
  {
    var ts: seq<u64> := [1000, 1000 + U32_LIMIT + 50];
    assert ts[..1] == [1000];
  }

  // ----- the drain -----

  /** deltas[k] -= tsc_delta_min, in uint32_t. */
  function Reduced(xs: seq<u32>, m: u64): (r: seq<u32>)
    ensures |r| == |xs|
    ensures forall k :: 0 <= k < |xs| && xs[k] >= m ==> r[k] == xs[k] - m
  {
    seq(|xs|, k requires 0 <= k < |xs| => ToU32(xs[k] - m))
  }

  /** One more read in the main loop is one more Record. */
  lemma SamplingStep(start: u64, thresh: u32, n: nat, ts: seq<u64>, k: nat)
    requires 1 <= k < |ts|
    ensures Sampling(start, thresh, n, ts[..k + 1])
      == Record(Sampling(start, thresh, n, ts[..k]), Delta(ts[k - 1], ts[k], false), ts[k], thresh, n)
  {
    assert ts[..k + 1][..k] == ts[..k];
  }

  /** The drain's subtraction is exact for every main-loop sample. */
  lemma MainLoopReducedExactly(start: u64, thresh: u32, n: nat, ts: seq<u64>)
    requires |ts| >= 1
    ensures var s := Sampling(start, thresh, n, ts);
      var first := |Sampling(start, thresh, n, ts[..1]).stored|;
      var r := Reduced(s.stored, s.deltaMin);
      forall c :: first <= c < |s.stored| ==> r[c] as int == s.stored[c] as int - s.deltaMin as int
  {
    MainLoopStoredAtLeastBaseline(start, thresh, n, ts);
  }

  /** When the main loop never runs the baseline stays UINT64_MAX, and the
      drain's "subtraction" adds one to the sample of the first iteration
      (modulo 2^32). */
  lemma UnsetBaselineAddsOne(start: u64, thresh: u32, n: nat, t: u64)
    ensures var s := Sampling(start, thresh, n, [t]);
      s.deltaMin == UINT64_MAX &&
      forall c :: 0 <= c < |s.stored| ==> Reduced(s.stored, s.deltaMin)[c] == ToU32(s.stored[c] as int + 1)
  {
    var s := Sampling(start, thresh, n, [t]);
    forall c | 0 <= c < |s.stored|
      ensures Reduced(s.stored, s.deltaMin)[c] == ToU32(s.stored[c] as int + 1)
    {
      var x := s.stored[c] as int;
      assert x - UINT64_MAX == (x + 1) + U32_LIMIT * (-0x1_0000_0000);
      ModShift(x + 1, -0x1_0000_0000);
    }
  }

  lemma ModShift(x: int, q: int)
    ensures (x + U32_LIMIT * q) % U32_LIMIT == x % U32_LIMIT
  {
  }

  // ----- osjitter.c's own comparator -----

  /** osjitter.c's cmp_u32 returns *x - *y: the difference taken in 32-bit
      unsigned arithmetic and converted to int (two's complement). */
  function CmpU32Sub(a: u32, b: u32): (r: int)
    ensures -0x8000_0000 <= r < 0x8000_0000
    ensures r % U32_LIMIT == (a as int - b as int) % U32_LIMIT
  {
    var d := ToU32(a as int - b as int);
    if d >= 0x8000_0000 then d - U32_LIMIT else d
  }

  /** When the two values differ by less than 2^31 the subtraction has the
      sign of the comparison. */
  lemma CmpU32SubAgrees(a: u32, b: u32)
    requires -0x8000_0000 < a as int - b as int < 0x8000_0000
    ensures CmpU32Sub(a, b) < 0 <==> CmpU32(a, b) == -1
    ensures CmpU32Sub(a, b) == 0 <==> CmpU32(a, b) == 0
    ensures CmpU32Sub(a, b) > 0 <==> CmpU32(a, b) == 1
  {
    if a < b {
      assert ToU32(a as int - b as int) == a as int - b as int + U32_LIMIT;
    }
  }

  /** Otherwise it may not: 0 compares above 2^31 + 1, 2^31 below 0, and
      the order is not transitive, so qsort's requirements are broken. */
  lemma CmpU32SubWrongSign()
    ensures CmpU32Sub(0, 0x8000_0001) > 0 && CmpU32(0, 0x8000_0001) == -1
    ensures CmpU32Sub(0x8000_0000, 0) < 0 && CmpU32(0x8000_0000, 0) == 1
    ensures CmpU32Sub(0, 0x7FFF_FFFF) < 0 && CmpU32Sub(0x7FFF_FFFF, 0xFFFF_FFFE) < 0
    ensures CmpU32Sub(0, 0xFFFF_FFFE) > 0
  {
  }

  /** The read that ends the measurement: the first at or beyond limit. */
  function StopAt(limit: u64, ticks: seq<u64>): (k: nat)
    requires exists j :: 0 <= j < |ticks| && ticks[j] >= limit
    ensures k < |ticks| && ticks[k] >= limit
    ensures forall j :: 0 <= j < k ==> ticks[j] < limit
  {
    if ticks[0] >= limit then 0
    else
      assert exists j :: 0 <= j < |ticks[1..]| && ticks[1..][j] >= limit by {
        var j :| 0 <= j < |ticks| && ticks[j] >= limit;
        assert ticks[1..][j - 1] == ticks[j];
      }
      1 + StopAt(limit, ticks[1..])
  }

  /** The main loop's 32-bit delta is the gap Delta describes. */
  lemma DeltaInLoop(prev: u64, t: u64)
    ensures ToU32(t as int - prev as int) == Delta(prev, t, false)
  {
  }

  /** A read below the limit is before the stopping read. */
  lemma StopAfter(limit: u64, ticks: seq<u64>, k: nat)
    requires exists j :: 0 <= j < |ticks| && ticks[j] >= limit
    requires k <= StopAt(limit, ticks) && k < |ticks|
    ensures ticks[k] < limit ==> k + 1 <= StopAt(limit, ticks)
  {
  }

  /** Whether the ticks reach the limit, as the loop needs to end. */
  predicate Ends(start: u64, limit: u64, ticks: seq<u64>)
  {
    start >= limit || exists j :: 0 <= j < |ticks| && ticks[j] >= limit
  }

  /** How many ticks the measurement takes. */
  function Taken(start: u64, limit: u64, ticks: seq<u64>): (k: nat)
    requires Ends(start, limit, ticks)
    ensures k <= |ticks|
  {
    if start >= limit then 0 else StopAt(limit, ticks) + 1
  }

  /** One measurement thread's state: the local counters of worker_main
      and the results it stores into its Worker. */
  class Worker {
    /** The calloc'd delta array; its length is args.samples. */
    const ds: array<u32>
    var i: nat
    var tscTotalInt: u64
    var tscOverflow: u64
    var tscDeltaMin: u64
    var tscStart: u64
    var samples: nat
    var threshCnt: nat

    /** calloc(n, sizeof ds[0]): n zeroed deltas. */
    constructor(n: nat)
      ensures ds.Length == n && fresh(ds)
      ensures forall k :: 0 <= k < n ==> ds[k] == 0
      ensures i == 0 && samples == 0 && threshCnt == 0
    {
      ds := new u32[n](_ => 0);
      i := 0;
      tscTotalInt := 0;
      tscOverflow := 0;
      tscDeltaMin := UINT64_MAX;
      tscStart := 0;
      samples := 0;
      threshCnt := 0;
    }

    /** The bookkeeping as a value: the counters and the recorded prefix
        ds[0..min(i, n)). */
    function Snapshot(): (t: Tally)
      reads this, ds
      ensures |t.stored| == Min(i, ds.Length)
    {
      Tally(i, tscTotalInt, tscOverflow, tscDeltaMin, ds[..Min(i, ds.Length)])
    }

    /** The measurement: start is the first counter read, ticks the ones
        after it. The loop runs while the last read is below
        start + tsc_runtime (added in 64 bits); the first iteration is
        unrolled and its minimum thrown away. */
    method Sample(thresh: u32, runtime: u64, start: u64, ticks: seq<u64>) returns (taken: nat)
      requires Ends(start, ToU64(start as int + runtime as int), ticks)
      modifies this, ds
      ensures taken == Taken(start, ToU64(start as int + runtime as int), ticks)
      ensures Snapshot() == Sampling(start, thresh, ds.Length, ticks[..taken])
      ensures forall q :: Min(i, ds.Length) <= q < ds.Length ==> ds[q] == old(ds[q])
      ensures tscStart == start && samples == old(samples) && threshCnt == old(threshCnt)
    {
      var n := ds.Length;
      i := 0;
      tscTotalInt := 0;
      tscOverflow := 0;
      tscDeltaMin := UINT64_MAX;
      tscStart := start;
      var limit := ToU64(start as int + runtime as int);
      var tsc := start;
      var k := 0;
      ghost var stop := 0;
      assert Snapshot() == Init;
      if tsc < limit {
        stop := StopAt(limit, ticks);
        var t := ticks[0];
        var delta: u64 := ToU64(t as int - tsc as int);
        tsc := t;
        Step(delta, t, thresh);
        k := 1;
        assert ticks[..1] == [t];
      }
      tscDeltaMin := UINT64_MAX;
      while tsc < limit
        invariant k <= |ticks|
        invariant k == 0 ==> tsc == start && start >= limit
        invariant k > 0 ==> tsc == ticks[k - 1] && start < limit && k <= stop + 1
        invariant tsc < limit ==> k <= stop
        invariant tsc >= limit ==> k == Taken(start, limit, ticks)
        invariant Snapshot() == Sampling(start, thresh, n, ticks[..k])
        invariant forall q :: Min(i, n) <= q < n ==> ds[q] == old(ds[q])
        invariant tscStart == start && samples == old(samples) && threshCnt == old(threshCnt)
        decreases |ticks| - k
      {
        var t := ticks[k];
        var delta: u32 := ToU32(t as int - tsc as int);
        DeltaInLoop(tsc, t);
        StopAfter(limit, ticks, k);
        tsc := t;
        SamplingStep(start, thresh, n, ticks, k);
        Step(delta, t, thresh);
        k := k + 1;
      }
      taken := k;
    }

    /** One loop body of worker_main on the fields. */
    method Step(delta: u64, t: u64, thresh: u32)
      modifies this, ds
      ensures Snapshot() == Record(old(Snapshot()), delta, t, thresh, ds.Length)
      ensures i >= old(i)
      ensures forall q :: Min(i, ds.Length) <= q < ds.Length ==> ds[q] == old(ds[q])
      ensures tscStart == old(tscStart) && samples == old(samples) && threshCnt == old(threshCnt)
    {
      if delta > thresh {
        tscTotalInt := ToU64(tscTotalInt + delta);
        if i < ds.Length {
          ds[i] := Saturate(delta);
        } else if tscOverflow == 0 {
          tscOverflow := t;
        }
        i := i + 1;
      }
      if delta < tscDeltaMin {
        tscDeltaMin := delta;
      }
    }

    /** The drain after the measurement: samples = min(i, n),
        thresh_cnt = i, the baseline subtracted from the total once per
        counted gap and from every recorded delta (both in unsigned
        arithmetic), then the recorded deltas sorted ascending. */
    method Drain()
      modifies this, ds
      ensures samples == Min(old(i), ds.Length) && threshCnt == old(i)
      ensures tscTotalInt == ToU64(old(tscTotalInt) - old(tscDeltaMin) * old(i))
      ensures i == old(i) && tscStart == old(tscStart) && tscOverflow == old(tscOverflow)
      ensures tscDeltaMin == old(tscDeltaMin)
      ensures Stats.Sorted(ds[..samples])
      ensures multiset(ds[..samples]) == multiset(Reduced(old(ds[..])[..samples], tscDeltaMin))
      ensures ds[samples..] == old(ds[..])[samples..]
    {
      samples := if i < ds.Length then i else ds.Length;
      threshCnt := i;
      tscTotalInt := ToU64(tscTotalInt as int - tscDeltaMin as int * i);
      ReduceBy(tscDeltaMin, samples);
      Stats.SortPrefix(ds, samples);
    }

    /** for (k = 0; k < count; ++k) ds[k] -= m; */
    method ReduceBy(m: u64, count: nat)
      requires count <= ds.Length
      modifies ds
      ensures ds[..count] == Reduced(old(ds[..count]), m)
      ensures ds[count..] == old(ds[count..])
    {
      var k := 0;
      while k < count
        invariant k <= count
        invariant ds[..k] == Reduced(old(ds[..count]), m)[..k]
        invariant ds[k..] == old(ds[k..])
      {
        ds[k] := ToU32(ds[k] as int - m as int);
        k := k + 1;
      }
    }
  }
}
