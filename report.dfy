/** The integer columns of osjitter's pp_results: one row per measured
    CPU, every tick count converted to nanoseconds with mul_u64_u32_shr.
    The iratio column (floating point) and the printf layout are not
    modelled. */
module Report {
  import opened Common
  import opened UtilH
  import opened Stats
  import Sampler

  /** The integer columns of one row, in print order. */
  datatype Row = Row(
    cpu: nat,
    tscKhz: u32,
    intr: nat,
    deltas: nat,
    ovflNs: u64,
    involCtx: int,
    sumIntrNs: u64,
    runtimeS: u32,
    loopNs: u64,
    pctNs: seq<u64>,
    madNs: u64)

  /** The percentile ranks of the median, p20, p80, p90, p99 and p99.9
      columns, as a / b. */
  const RANKS: seq<(nat, nat)> := [(1, 2), (1, 5), (4, 5), (90, 100), (99, 100), (999, 1000)]

  /** Every rank a / b with a < b selects an element of a nonempty array. */
  lemma RankBelow(n: nat, a: nat, b: nat)
    requires a < b
    ensures ValidRank(n, a, b)
  {
    if n > 0 {
      MulStrict(n - 1, n, a, b);
      assert n * a <= (n - 1) * a + a;
      MulMono(n, n, a + 1, b);
      DivLt(n * a, b, n);
    }
  }

  /** ovfl_ns: 0 when the buffer never overflowed, otherwise the time from
      the start of the measurement to the first gap that found it full
      (the tick difference taken in 64 bits). */
  function OvflNs(overflow: u64, start: u64, mult: u32, shift: nat): (r: u64)
    requires shift < 128
    ensures overflow == 0 ==> r == 0
    ensures overflow != 0 && start <= overflow ==>
      r == Shr((overflow - start) * mult, shift) % U64_LIMIT
  {
    if overflow == 0 then 0 else MulU64U32Shr(ToU64(overflow as int - start as int), mult, shift)
  }

  /** A buffer that fills up later is reported with a later overflow time,
      as long as the conversion does not wrap. */
  lemma OvflNsMonotone(o1: u64, o2: u64, start: u64, mult: u32, shift: nat)
    requires shift < 128 && 0 < o1 <= o2 && start <= o1
    requires Shr((o2 - start) * mult, shift) < U64_LIMIT
    ensures OvflNs(o1, start, mult, shift) <= OvflNs(o2, start, mult, shift)
  {
    MulU64U32ShrMonotone(o1 - start, o2 - start, mult, shift);
  }

  /** max_ns before conversion: the last sorted delta, or 0 without any. */
  function MaxSample(x: seq<u32>): (r: u32)
    requires Sorted(x)
    ensures |x| == 0 ==> r == 0
    ensures |x| > 0 ==> r in x
    ensures forall k :: 0 <= k < |x| ==> x[k] <= r
  {
    if |x| == 0 then 0 else x[|x| - 1]
  }

  /** The six percentile columns and the max column, in nanoseconds. */
  function Columns(x: seq<u32>, mult: u32, shift: nat): (c: seq<u64>)
    requires Sorted(x) && shift < 128
    ensures |c| == |RANKS| + 1
    ensures c[|RANKS|] == MulU64U32Shr(MaxSample(x), mult, shift)
  {
    seq(|RANKS| + 1, k requires 0 <= k <= |RANKS| =>
      if k == |RANKS| then MulU64U32Shr(MaxSample(x), mult, shift)
      else
        RankBelow(|x|, RANKS[k].0, RANKS[k].1);
        MulU64U32Shr(PercentileU32(x, RANKS[k].0, RANKS[k].1), mult, shift))
  }

  /** A worker without samples reports 0 in every percentile column and in
      the max column. */
  lemma ColumnsOfNoSamples(mult: u32, shift: nat)
    requires shift < 128
    ensures forall k :: 0 <= k < |Columns([], mult, shift)| ==> Columns([], mult, shift)[k] == 0
  {
    MulU64U32ShrZero(mult, shift);
  }

  /** The max column bounds every percentile column, provided the middle
      pair of an even-size sample adds up without wrapping and the
      conversion of the maximum does not wrap. */
  lemma MaxBoundsPercentiles(x: seq<u32>, mult: u32, shift: nat, k: nat)
    requires Sorted(x) && shift < 128 && k < |RANKS|
    requires ValidRank(|x|, RANKS[k].0, RANKS[k].1) && AverageFits(x, RANKS[k].0, RANKS[k].1)
    requires Shr(MaxSample(x) * mult, shift) < U64_LIMIT
    ensures Columns(x, mult, shift)[k] <= Columns(x, mult, shift)[|RANKS|]
  {
    var (a, b) := RANKS[k];
    var p := PercentileU32(x, a, b);
    if |x| > 0 {
      PercentileWithinRange(x, a, b);
    }
    MulU64U32ShrMonotone(p, MaxSample(x), mult, shift);
  }

  /** One row of pp_results for the worker of CPU cpu after its drain. The
      scratch array ys receives the sorted absolute deviations that
      mad_u32 leaves there. */
  method PpRow(cpu: nat, tscKhz: u32, runtimeS: u32, mult: u32, shift: nat,
               w: Sampler.Worker, invol: int, ys: array<u32>) returns (row: Row)
    requires shift < 128
    requires w.samples <= w.ds.Length && Sorted(w.ds[..w.samples])
    requires w.samples <= ys.Length && ys != w.ds
    modifies ys
    ensures row.cpu == cpu && row.tscKhz == tscKhz && row.runtimeS == runtimeS
    ensures row.intr == w.threshCnt && row.deltas == w.samples && row.involCtx == invol
    ensures row.ovflNs == OvflNs(w.tscOverflow, w.tscStart, mult, shift)
    ensures row.sumIntrNs == MulU64U32Shr(w.tscTotalInt, mult, shift)
    ensures row.loopNs == MulU64U32Shr(w.tscDeltaMin, mult, shift)
    ensures row.pctNs == Columns(w.ds[..w.samples], mult, shift)
    ensures w.samples == 0 ==> row.madNs == 0
    ensures w.samples > 0 ==>
      var x := w.ds[..w.samples];
      Sorted(ys[..w.samples]) &&
      multiset(ys[..w.samples]) == multiset(Deviations(x, Median(x))) &&
      row.madNs == MulU64U32Shr(Median(ys[..w.samples]), mult, shift)
  {
    var n := w.samples;
    var mad := MadU32(w.ds, ys, n);
    if n == 0 {
      MulU64U32ShrZero(mult, shift);
    }
    row := Row(cpu, tscKhz, w.threshCnt, n,
               OvflNs(w.tscOverflow, w.tscStart, mult, shift),
               invol,
               MulU64U32Shr(w.tscTotalInt, mult, shift),
               runtimeS,
               MulU64U32Shr(w.tscDeltaMin, mult, shift),
               Columns(w.ds[..n], mult, shift),
               MulU64U32Shr(mad, mult, shift));
  }
}
