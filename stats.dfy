/** The statistics of util.c: the sortedness check, the nearest-rank
    percentile with even-size averaging, the qsort calls (ascending by
    cmp_u32) and the median absolute deviation. */
module Stats {
  import opened Common
  import opened UtilH

  /** Ascending order, the order qsort produces with util.h's cmp_u32
      (see SortedByCmp). */
  predicate Sorted(s: seq<u32>)
  {
    forall i, j :: 0 <= i < j < |s| ==> s[i] <= s[j]
  }

  /** Sorted means that cmp_u32 never ranks an earlier element above a
      later one. */
  lemma SortedByCmp(s: seq<u32>)
    ensures Sorted(s) <==> forall i, j :: 0 <= i < j < |s| ==> CmpU32(s[i], s[j]) <= 0
  {
  }

  /** is_sorted: walks the array keeping the previous element in `a`. */
  method IsSorted(xs: seq<u32>) returns (b: bool)
    ensures b <==> Sorted(xs)
  {
    if |xs| == 0 {
      return true;
    }
    var a := xs[0];
    var i := 1;
    while i < |xs|
      invariant 1 <= i <= |xs|
      invariant a == xs[i - 1]
      invariant Sorted(xs[..i])
    {
      if a > xs[i] {
        return false;
      }
      assert forall k :: 0 <= k < i ==> xs[..i + 1][k] == xs[..i][k];
      a := xs[i];
      i := i + 1;
    }
    assert xs[..i] == xs;
    return true;
  }

  /** The rank percentile_u32 reads: n * a / b. */
  function Rank(n: nat, a: nat, b: nat): nat
    requires b > 0
  {
    n * a / b
  }

  /** What percentile_u32 asserts of its arguments (a nonempty array needs
      a rank inside it). */
  predicate ValidRank(n: nat, a: nat, b: nat)
  {
    n > 0 ==> b > 0 && Rank(n, a, b) < n
  }

  /** Whether the two ranks that an even-size percentile averages add up
      without wrapping around in 32-bit arithmetic. */
  predicate AverageFits(x: seq<u32>, a: nat, b: nat)
    requires ValidRank(|x|, a, b)
  {
    |x| > 0 && |x| % 2 == 0 && Rank(|x|, a, b) > 0 ==>
      x[Rank(|x|, a, b)] as int + x[Rank(|x|, a, b) - 1] as int < U32_LIMIT
  }

  /** percentile_u32: 0 for no samples; the element at rank n*a/b when n is
      odd or the rank is 0; otherwise the mean of that element and its
      predecessor, added in 32 bits (so it may wrap) and halved. */
  function PercentileU32(x: seq<u32>, a: nat, b: nat): (r: u32)
    requires Sorted(x)
    requires ValidRank(|x|, a, b)
    ensures |x| == 0 ==> r == 0
    ensures |x| > 0 && (|x| % 2 == 1 || Rank(|x|, a, b) == 0) ==> r == x[Rank(|x|, a, b)]
    ensures |x| > 0 && |x| % 2 == 0 && Rank(|x|, a, b) > 0 && AverageFits(x, a, b) ==>
      var i := Rank(|x|, a, b);
      x[i - 1] <= r <= x[i] && (2 * r == x[i - 1] as int + x[i] as int || 2 * r + 1 == x[i - 1] as int + x[i] as int)
  {
    if |x| == 0 then 0
    else
      var i := Rank(|x|, a, b);
      if |x| % 2 == 1 || i == 0 then x[i]
      else ToU32(x[i] as int + x[i - 1] as int) / 2
  }

  function Median(x: seq<u32>): u32
    requires Sorted(x)
  {
    PercentileU32(x, 1, 2)
  }

  /** Every percentile of sorted data whose middle pair does not wrap lies
      between the smallest and the largest sample. */
  lemma PercentileWithinRange(x: seq<u32>, a: nat, b: nat)
    requires Sorted(x) && |x| > 0
    requires ValidRank(|x|, a, b) && AverageFits(x, a, b)
    ensures x[0] <= PercentileU32(x, a, b) <= x[|x| - 1]
  {
    var i := Rank(|x|, a, b);
    assert x[0] <= x[i] <= x[|x| - 1];
  }

  /** The worked examples of the design: over [10, 20, 30, 40, 50] the
      median is 30, the 20th percentile 20 and the 90th percentile 50. */
  lemma PercentileExamples()
    ensures PercentileU32([10, 20, 30, 40, 50], 1, 2) == 30
    ensures PercentileU32([10, 20, 30, 40, 50], 1, 5) == 20
    ensures PercentileU32([10, 20, 30, 40, 50], 90, 100) == 50
    ensures PercentileU32([10, 20, 30, 40], 1, 2) == 25
  {
    var x: seq<u32> := [10, 20, 30, 40, 50];
    assert Sorted(x);
    assert Rank(5, 1, 2) == 2 && Rank(5, 1, 5) == 1 && Rank(5, 90, 100) == 4;
    var y: seq<u32> := [10, 20, 30, 40];
    assert Sorted(y);
    assert Rank(4, 1, 2) == 2;
  }

  /** qsort(a, n, sizeof a[0], cmp_u32): the first n elements are put in
      ascending order (a permutation of what was there); the rest of the
      array is untouched. Modelled as an insertion sort. */
  method SortPrefix(a: array<u32>, n: nat)
    requires n <= a.Length
    modifies a
    ensures Sorted(a[..n])
    ensures multiset(a[..n]) == multiset(old(a[..n]))
    ensures a[n..] == old(a[n..])
  {
    var i := 0;
    while i < n
      invariant 0 <= i <= n
      invariant Sorted(a[..i])
      invariant multiset(a[..n]) == multiset(old(a[..n]))
      invariant a[n..] == old(a[n..])
    {
      InsertLast(a, i, n);
      i := i + 1;
    }
  }

  /** One insertion step: a[i] sinks into the sorted a[..i]. */
  method InsertLast(a: array<u32>, i: nat, n: nat)
    requires i < n <= a.Length
    requires Sorted(a[..i])
    modifies a
    ensures Sorted(a[..i + 1])
    ensures multiset(a[..n]) == multiset(old(a[..n]))
    ensures a[n..] == old(a[n..])
  {
    var j := i;
    assert SortedExcept(a[..], i, j);
    while j > 0 && a[j - 1] > a[j]
      invariant 0 <= j <= i
      invariant SortedExcept(a[..], i, j)
      invariant multiset(a[..n]) == multiset(old(a[..n]))
      invariant a[n..] == old(a[n..])
    {
      SinkStep(a[..], i, j);
      SwapAdjacent(a, j - 1, n);
      j := j - 1;
    }
    SinkDone(a[..], i, j);
  }

  /** Insertion-sort state: a[..i+1] is in order except for the element at
      j, which is no larger than anything after it. */
  ghost predicate SortedExcept(s: seq<u32>, i: nat, j: nat)
  {
    && i < |s|
    && (forall p, q :: 0 <= p < q <= i && p != j && q != j ==> s[p] <= s[q])
    && (forall q :: j < q <= i ==> s[j] <= s[q])
  }

  lemma SinkStep(s: seq<u32>, i: nat, j: nat)
    requires SortedExcept(s, i, j) && 0 < j <= i && s[j - 1] > s[j]
    ensures SortedExcept(s[j - 1 := s[j]][j := s[j - 1]], i, j - 1)
  {
  }

  lemma SinkDone(s: seq<u32>, i: nat, j: nat)
    requires SortedExcept(s, i, j) && j <= i
    requires j == 0 || s[j - 1] <= s[j]
    ensures Sorted(s[..i + 1])
  {
    forall p, q | 0 <= p < q <= i
      ensures s[p] <= s[q]
    {
      if q == j && p < j - 1 {
        assert s[p] <= s[j - 1];
      }
    }
  }

  method SwapAdjacent(a: array<u32>, k: nat, n: nat)
    requires k + 1 < n <= a.Length
    modifies a
    ensures a[..] == old(a[..])[k := old(a[k + 1])][k + 1 := old(a[k])]
    ensures multiset(a[..n]) == multiset(old(a[..n]))
    ensures a[n..] == old(a[n..])
  {
    ghost var before := a[..n];
    a[k], a[k + 1] := a[k + 1], a[k];
    assert a[..n] == before[k := before[k + 1]][k + 1 := before[k]];
  }

  function Abs(d: int): nat { if d < 0 then -d else d }

  /** The absolute deviations |x[k] - m| that mad_u32 writes into y. */
  function Deviations(x: seq<u32>, m: u32): (d: seq<u32>)
    ensures |d| == |x|
    ensures forall k :: 0 <= k < |x| ==> d[k] == Abs(x[k] as int - m as int)
  {
    seq(|x|, k requires 0 <= k < |x| => Abs(x[k] as int - m as int) as u32)
  }

  /** mad_u32: 0 for no samples; otherwise y[0..n) receives the absolute
      deviations of x from its median, is sorted, and its median is
      returned. x is left unchanged. */
  method MadU32(x: array<u32>, y: array<u32>, n: nat) returns (mad: u32)
    requires n <= x.Length && n <= y.Length && x != y
    requires Sorted(x[..n])
    modifies y
    ensures n == 0 ==> mad == 0 && y[..] == old(y[..])
    ensures n > 0 ==> Sorted(y[..n]) && mad == Median(y[..n])
    ensures n > 0 ==> multiset(y[..n]) == multiset(Deviations(x[..n], Median(x[..n])))
    ensures y[n..] == old(y[n..])
    ensures (forall k :: 0 <= k < n ==> x[k] == x[0]) ==> mad == 0
  {
    if n == 0 {
      return 0;
    }
    var median := PercentileU32(x[..n], 1, 2);
    var i := 0;
    while i < n
      invariant 0 <= i <= n
      invariant forall k :: 0 <= k < i ==> y[k] == Abs(x[k] as int - median as int)
      invariant y[n..] == old(y[n..])
    {
      y[i] := Abs(x[i] as int - median as int) as u32;
      i := i + 1;
    }
    assert y[..n] == Deviations(x[..n], median);
    SortPrefix(y, n);
    mad := PercentileU32(y[..n], 1, 2);
    if forall k :: 0 <= k < n ==> x[k] == x[0] {
      MadOfConstant(x[..n], y[..n]);
    }
  }

  /** All samples equal: the MAD is 0. When the common value is at least
      2^31 and the count is even, the median itself wraps to value - 2^31,
      every deviation is 2^31, and the MAD's own average wraps back to 0. */
  lemma MadOfConstant(x: seq<u32>, ys: seq<u32>)
    requires Sorted(x) && |x| > 0
    requires forall k :: 0 <= k < |x| ==> x[k] == x[0]
    requires Sorted(ys) && multiset(ys) == multiset(Deviations(x, Median(x)))
    ensures Median(ys) == 0
  {
    var m := Median(x);
    var d := Deviations(x, m);
    var i := Rank(|x|, 1, 2);
    assert i < |x|;
    var dev: u32 := if |x| % 2 == 1 || i == 0 || x[0] < 0x8000_0000 then 0 else 0x8000_0000;
    assert m == x[0] - dev by {
      if |x| % 2 == 0 && i > 0 {
        assert m == ToU32(x[0] as int + x[0] as int) / 2;
      }
    }
    assert |ys| == |d| by {
      assert |multiset(ys)| == |multiset(d)|;
    }
    forall k | 0 <= k < |ys|
      ensures ys[k] == dev
    {
      assert ys[k] in multiset(d);
    }
    assert Rank(|ys|, 1, 2) < |ys|;
  }
}
