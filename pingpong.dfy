/** The measurement threads of pingpong.c, without the notification
    itself: which iterations send and which receive, how many deltas a
    thread records, spin_main_finalize (a raw copy, then the deltas
    sorted in place), spin_null_main, and the rows pp_results prints.
    The handshake through the shared cells is concurrency and is replaced
    by the sequence of deltas the receiving side measures. */
module PingPong {
  import opened Common
  import opened UtilH
  import opened Stats
  import Report

  /** Iteration i of a thread with role init sends when i % 2 == init and
      receives otherwise (thread 0 starts by sending). */
  predicate IsSend(i: nat, init: nat)
  {
    i % 2 == init
  }

  /** How many of the first n iterations receive. */
  function ReceiveCount(n: nat, init: nat): (r: nat)
    ensures r <= n
  {
    if n == 0 then 0
    else ReceiveCount(n - 1, init) + (if IsSend(n - 1, init) then 0 else 1)
  }

  /** Thread 0 receives floor(n/2) times, thread 1 ceil(n/2) times. */
  lemma {:induction false} ReceiveCountClosed(n: nat, init: nat)
    requires init <= 1
    ensures ReceiveCount(n, init) == if init == 0 then n / 2 else (n + 1) / 2
  {
    if n > 0 {
      ReceiveCountClosed(n - 1, init);
    }
  }

  /** The buffer spin_main allocates as written: calloc(w.n / 2). */
  function SourceCapacity(n: nat): nat { n / 2 }

  /** For odd n the thread that starts by receiving records one delta
      more than the buffer spin_main allocates has room for: with n = 3
      it receives twice into a buffer of one, and the assertion
      j <= n / 2 in spin_main_finalize fails. */
  lemma SourceCapacityTooSmall(n: nat)
    requires n % 2 == 1
    ensures ReceiveCount(n, 1) == SourceCapacity(n) + 1
    ensures ReceiveCount(3, 1) == 2 && SourceCapacity(3) == 1
  {
    ReceiveCountClosed(n, 1);
    ReceiveCountClosed(3, 1);
  }

  /** The buffer size the receiving loop needs: ceil(n / 2). */
  function Capacity(n: nat): (c: nat)
    ensures c >= SourceCapacity(n)
  {
    (n + 1) / 2
  }

  /** Either thread's deltas fit in ceil(n / 2) entries, and thread 1
      fills them. */
  lemma CapacitySuffices(n: nat, init: nat)
    requires init <= 1
    ensures ReceiveCount(n, init) <= Capacity(n)
    ensures init == 1 ==> ReceiveCount(n, init) == Capacity(n)
  {
    ReceiveCountClosed(n, init);
  }

  /** Pauses before the send of iteration i: k for the first two
      iterations, then k * 2 in unsigned arithmetic. */
  function Pauses(i: nat, k: u32): u32
  {
    if i < 2 then k else ToU32(k as int * 2)
  }

  /** The pauses of all sends among the first n iterations. */
  function PauseTotal(n: nat, init: nat, k: u32): nat
  {
    if n == 0 then 0
    else PauseTotal(n - 1, init, k) + (if IsSend(n - 1, init) then Pauses(n - 1, k) as nat else 0)
  }

  /** Exactly one of the first two iterations sends, with k pauses; every
      later send pauses 2k times (k below 2^31, so 2k does not wrap). */
  lemma {:induction false} PauseTotalClosed(n: nat, init: nat, k: u32)
    requires init <= 1 && n >= 2 && k < 0x8000_0000
    ensures PauseTotal(n, init, k) == k + 2 * k * (n - ReceiveCount(n, init) - 1)
  {
    if n == 2 {
      assert PauseTotal(1, init, k) == if init == 0 then k as nat else 0;
    } else {
      PauseTotalClosed(n - 1, init, k);
      var s := n - 1 - ReceiveCount(n - 1, init);
      assert s >= 1 by {
        ReceiveCountClosed(n - 1, init);
      }
      if IsSend(n - 1, init) {
        assert Pauses(n - 1, k) == 2 * k;
        MulSucc(2 * k, s - 1);
      }
    }
  }

  lemma MulSucc(a: int, b: int)
    ensures a * (b + 1) == a * b + a
  {
  }

  /** The uint32_t entries ds[j] = delta stores, keeping the low 32 bits
      of each 64-bit delta. */
  function Stored(deltas: seq<u64>): (s: seq<u32>)
    ensures |s| == |deltas|
    ensures forall q :: 0 <= q < |s| ==> s[q] == deltas[q] % U32_LIMIT
  {
    seq(|deltas|, q requires 0 <= q < |deltas| => ToU32(deltas[q]))
  }

  /** One more delta stores one more truncated value. */
  lemma StoredSnoc(deltas: seq<u64>, j: nat)
    requires j < |deltas|
    ensures Stored(deltas[..j + 1]) == Stored(deltas[..j]) + [ToU32(deltas[j])]
  {
  }

  /** One of the two threads: its role and iteration counts, and what
      spin_main_finalize stores into it. */
  class Worker {
    const init: nat
    const n: u32
    const k: u32
    var rawDs: array<u32>
    var ds: array<u32>
    var dsSize: nat

    /** ws[i] after spin_pingpong sets n, k and init = i (the rest is 0). */
    constructor(init: nat, n: u32, k: u32)
      requires init <= 1
      ensures this.init == init && this.n == n && this.k == k
      ensures dsSize == 0 && rawDs.Length == 0 && ds.Length == 0
    {
      this.init := init;
      this.n := n;
      this.k := k;
      rawDs := new u32[0];
      ds := new u32[0];
      dsSize := 0;
    }

    /** spin_main_finalize: on allocation failure nothing is stored;
        otherwise raw_ds becomes a copy of the first j deltas in the
        order they were measured, the deltas themselves are sorted in
        place, and ds_size is j. j must fit the buffer that holds the
        deltas (ceil(n / 2), see Capacity). */
    method Finalize(buf: array<u32>, j: nat, allocOk: bool) returns (ok: bool)
      requires j <= buf.Length && j <= Capacity(n)
      modifies this, buf
      ensures ok == allocOk
      ensures !ok ==> buf[..] == old(buf[..]) && ds == old(ds) && rawDs == old(rawDs) && dsSize == old(dsSize)
      ensures ok ==> ds == buf && dsSize == j && fresh(rawDs) && rawDs[..] == old(buf[..j])
      ensures ok ==> Sorted(ds[..j]) && multiset(ds[..j]) == multiset(rawDs[..])
      ensures ok ==> buf[j..] == old(buf[j..])
    {
      if !allocOk {
        return false;
      }
      var raw := new u32[j];
      var q := 0;
      while q < j
        modifies raw
        invariant q <= j
        invariant raw[..q] == buf[..q]
      {
        raw[q] := buf[q];
        q := q + 1;
      }
      assert raw[..] == buf[..j];
      SortPrefix(buf, j);
      assert raw[..] == old(buf[..j]);
      ds := buf;
      rawDs := raw;
      dsSize := j;
      return true;
    }

    /** spin_main with the receive buffer sized ceil(n / 2): n iterations
        alternating between sending (after the pauses) and receiving,
        where the j-th receive records deltas[j]; then the finalize.
        Nothing happens when the buffer cannot be allocated. */
    method SpinMain(deltas: seq<u64>, callocOk: bool, mallocOk: bool) returns (ok: bool, pauses: nat)
      requires |deltas| >= ReceiveCount(n, init)
      requires init <= 1
      modifies this
      ensures ok == (callocOk && mallocOk)
      ensures !ok ==> ds == old(ds) && rawDs == old(rawDs) && dsSize == old(dsSize)
      ensures callocOk ==> pauses == PauseTotal(n, init, k)
      ensures ok ==> dsSize == ReceiveCount(n, init) && ds.Length == Capacity(n) && dsSize <= ds.Length
      ensures ok ==> fresh(ds) && fresh(rawDs) && rawDs[..] == Stored(deltas[..dsSize])
      ensures ok ==> Sorted(ds[..dsSize]) && multiset(ds[..dsSize]) == multiset(rawDs[..])
    {
      if !callocOk {
        return false, 0;
      }
      var buf := new u32[Capacity(n)](_ => 0);
      var j := 0;
      var i := 0;
      pauses := 0;
      while i < n
        modifies buf
        invariant i <= n
        invariant j == ReceiveCount(i, init) && j <= ReceiveCount(n, init)
        invariant j <= buf.Length
        invariant buf[..j] == Stored(deltas[..j])
        invariant pauses == PauseTotal(i, init, k)
      {
        if IsSend(i, init) {
          pauses := pauses + Pauses(i, k) as nat;
        } else {
          assert j < buf.Length && j < ReceiveCount(n, init) by {
            CapacityAt(i + 1, n, init);
            ReceiveCountMonotone(i + 1, n, init);
          }
          StoredSnoc(deltas, j);
          buf[j] := ToU32(deltas[j]);
          assert buf[..j + 1] == buf[..j] + [buf[j]];
          j := j + 1;
        }
        i := i + 1;
      }
      ok := Finalize(buf, j, mallocOk);
    }

    /** spin_null_main: no notification, n / 2 deltas between two
        counter reads, recorded in a buffer of n / 2. */
    method SpinNullMain(deltas: seq<u64>, callocOk: bool, mallocOk: bool) returns (ok: bool)
      requires |deltas| >= n / 2
      modifies this
      ensures ok == (callocOk && mallocOk)
      ensures !ok ==> ds == old(ds) && rawDs == old(rawDs) && dsSize == old(dsSize)
      ensures ok ==> dsSize == n / 2 && ds.Length == n / 2 && fresh(ds) && fresh(rawDs)
      ensures ok ==> rawDs[..] == Stored(deltas[..n / 2])
      ensures ok ==> Sorted(ds[..dsSize]) && multiset(ds[..dsSize]) == multiset(rawDs[..])
    {
      if !callocOk {
        return false;
      }
      var half := n / 2;
      var buf := new u32[half](_ => 0);
      var j := 0;
      var i := 0;
      while i < half
        modifies buf
        invariant i <= half && j == i
        invariant buf[..j] == Stored(deltas[..j])
      {
        buf[j] := ToU32(deltas[i]);
        j := j + 1;
        assert buf[..j] == Stored(deltas[..j]);
        i := i + 1;
      }
      ok := Finalize(buf, j, mallocOk);
    }
  }

  lemma {:induction false} ReceiveCountMonotone(i: nat, n: nat, init: nat)
    requires i <= n
    ensures ReceiveCount(i, init) <= ReceiveCount(n, init)
  {
    if i < n {
      ReceiveCountMonotone(i, n - 1, init);
    }
  }

  /** The receive after iteration i - 1 still fits: ReceiveCount(i) is at
      most ceil(n / 2) for i <= n. */
  lemma CapacityAt(i: nat, n: nat, init: nat)
    requires init <= 1 && i <= n
    ensures ReceiveCount(i, init) <= Capacity(n)
  {
    ReceiveCountClosed(i, init);
  }

  /** One row of pingpong's table: thread, TSC rate, number of deltas,
      then min, max, the six percentiles and the MAD in nanoseconds. */
  datatype Row = Row(thread: nat, tscKhz: u32, size: nat, minNs: u64, maxNs: u64, pctNs: seq<u64>, madNs: u64)

  /** The part of pp_results for thread i: mad_u32 runs on every thread,
      but a thread without deltas gets no row. */
  method PpThread(i: nat, tscKhz: u32, mult: u32, shift: nat, w: Worker, ys: array<u32>) returns (row: Option<Row>)
    requires shift < 128
    requires w.dsSize <= w.ds.Length && Sorted(w.ds[..w.dsSize])
    requires w.dsSize <= ys.Length && ys != w.ds
    modifies ys
    ensures row.None? <==> w.dsSize == 0
    ensures row.Some? ==> var x := w.ds[..w.dsSize];
      && row.value.thread == i && row.value.tscKhz == tscKhz && row.value.size == w.dsSize
      && row.value.minNs == MulU64U32Shr(x[0], mult, shift)
      && row.value.maxNs == MulU64U32Shr(x[|x| - 1], mult, shift)
      && row.value.pctNs == Report.Columns(x, mult, shift)[..|Report.RANKS|]
      && Sorted(ys[..w.dsSize])
      && multiset(ys[..w.dsSize]) == multiset(Deviations(x, Median(x)))
      && row.value.madNs == MulU64U32Shr(Median(ys[..w.dsSize]), mult, shift)
  {
    var size := w.dsSize;
    var mad := MadU32(w.ds, ys, size);
    if size == 0 {
      return None;
    }
    var x := w.ds[..size];
    var cols := Report.Columns(x, mult, shift);
    row := Some(Row(i, tscKhz, size,
                    MulU64U32Shr(w.ds[0], mult, shift),
                    MulU64U32Shr(w.ds[size - 1], mult, shift),
                    cols[..|Report.RANKS|],
                    MulU64U32Shr(mad, mult, shift)));
  }

  /** The min column is at most every percentile column when the
      conversion of the maximum does not wrap (and the middle pair of an
      even-size sample does not wrap either). */
  lemma MinBoundsPercentiles(x: seq<u32>, mult: u32, shift: nat, q: nat)
    requires Sorted(x) && |x| > 0 && shift < 128 && q < |Report.RANKS|
    requires ValidRank(|x|, Report.RANKS[q].0, Report.RANKS[q].1)
    requires AverageFits(x, Report.RANKS[q].0, Report.RANKS[q].1)
    requires Shr(x[|x| - 1] * mult, shift) < U64_LIMIT
    ensures MulU64U32Shr(x[0], mult, shift) <= Report.Columns(x, mult, shift)[q]
  {
    var (a, b) := Report.RANKS[q];
    var p := PercentileU32(x, a, b);
    PercentileWithinRange(x, a, b);
    MulMono(p, x[|x| - 1], mult, mult);
    ShrMonotone(p * mult, x[|x| - 1] * mult, shift);
    MulU64U32ShrMonotone(x[0], p, mult, shift);
  }
}
