/**
  The benchmark value accumulator.

  A `BenchmarkHelper` is a growable list of `i64` samples. Each of the three
  ways of storing a sample appends exactly one value, masked to the
  non-negative `i64` range. `Average` sorts a copy of the samples, optionally
  trims a tenth from each end, and yields the trimmed sum and the window
  length; the floating-point division of the one by the other is not modelled.

  Clock readings (`SystemTime`, `Instant`) are modelled as integer counts of
  nanoseconds on their clock, so `end - start` is the duration in nanoseconds.
 */
module Benchmarks {
  import opened RustInts
  import opened Sorting

  datatype SystemTime = SystemTime(nanos: int)
  datatype Instant = Instant(nanos: int)

  datatype BenchmarkHelper = BenchmarkHelper(values: seq<I64>)

  /**
    Either the resulting helper, or a panic; `message` is the panic text
    (for `expect`, the text handed to it, which the panic message starts with).
   */
  datatype Outcome = Stored(bench: BenchmarkHelper) | Panicked(message: string)

  const NON_MONOTONIC: string := "Non-monotonic time detected!"
  const CAPACITY_OVERFLOW: string := "capacity overflow"

  /** The largest number of `i64` slots a `Vec` may reserve: their bytes must not exceed `isize::MAX`. */
  const MAX_CAPACITY: int := ISIZE_MAX / 8

  /** The integer parts of the average: the trimmed sum and the number of samples it covers. */
  datatype Mean = Mean(numerator: int, denominator: int)

  /**
    An empty helper with room reserved for `capacity` samples. Reserving more
    than `isize::MAX` bytes panics; below that bound the capacity only
    pre-allocates and is not observable in the samples.
   */
  function New(capacity: Usize): (r: Outcome)
    ensures r.Panicked? <==> 8 * capacity > ISIZE_MAX
    ensures r.Panicked? ==> r.message == CAPACITY_OVERFLOW
    ensures r.Stored? ==> r.bench.values == []
  {
    if capacity > MAX_CAPACITY then Panicked(CAPACITY_OVERFLOW) else Stored(BenchmarkHelper([]))
  }

  function Reset(b: BenchmarkHelper): (r: BenchmarkHelper)
    ensures r.values == []
  {
    b.(values := [])
  }

  lemma ResetIdempotent(b: BenchmarkHelper)
    ensures Reset(Reset(b)) == Reset(b)
  {
  }

  /** Resetting leaves the helper as a freshly created one, whatever capacity that was created with. */
  lemma ResetIsFresh(b: BenchmarkHelper, capacity: Usize)
    ensures New(capacity).Stored? ==> Reset(b) == New(capacity).bench
  {
  }

  /** Appends one sample: `x & i64::MAX`, reinterpreted as `i64`. */
  function StoreUsize(b: BenchmarkHelper, x: Usize): (r: BenchmarkHelper)
    ensures r.values == b.values + [x % TWO_63]
    ensures 0 <= r.values[|r.values| - 1] <= I64_MAX
  {
    b.(values := b.values + [MaskToI64(x)])
  }

  /** A `usize` that already fits in `i64` is stored unchanged. */
  lemma StoreUsizeFitting(b: BenchmarkHelper, x: Usize)
    requires x <= I64_MAX
    ensures StoreUsize(b, x).values == b.values + [x]
  {
    MaskFitsIsIdentity(x);
  }

  /** Appends the elapsed nanoseconds masked to `i64`; a clock that went backwards panics. */
  function StoreSystemTime(b: BenchmarkHelper, start: SystemTime, end: SystemTime): (r: Outcome)
    ensures r.Panicked? <==> end.nanos < start.nanos
    ensures r.Panicked? ==> r.message == NON_MONOTONIC
    ensures r.Stored? ==> r.bench.values == b.values + [(end.nanos - start.nanos) % TWO_63]
  {
    if end.nanos < start.nanos then
      Panicked(NON_MONOTONIC)
    else
      Stored(b.(values := b.values + [MaskToI64(end.nanos - start.nanos)]))
  }

  /** Appends the elapsed nanoseconds masked to `i64`, for a monotonic clock. */
  function StoreInstant(b: BenchmarkHelper, start: Instant, end: Instant): (r: BenchmarkHelper)
    requires start.nanos <= end.nanos
    ensures r.values == b.values + [(end.nanos - start.nanos) % TWO_63]
  {
    b.(values := b.values + [MaskToI64(end.nanos - start.nanos)])
  }

  /** Every stored sample is non-negative, whichever way it was stored. */
  ghost predicate NonNegative(b: BenchmarkHelper)
  {
    forall i :: 0 <= i < |b.values| ==> 0 <= b.values[i]
  }

  lemma StoresKeepNonNegative(b: BenchmarkHelper, x: Usize, s0: SystemTime, s1: SystemTime, i0: Instant, i1: Instant)
    requires NonNegative(b)
    requires i0.nanos <= i1.nanos
    ensures NonNegative(StoreUsize(b, x))
    ensures StoreSystemTime(b, s0, s1).Stored? ==> NonNegative(StoreSystemTime(b, s0, s1).bench)
    ensures NonNegative(StoreInstant(b, i0, i1))
  {
  }

  /** How many samples `average` drops from each end of the sorted copy. */
  function TrimLimit(len: nat, percent: bool): (limit: nat)
    ensures 2 * limit <= len
    ensures len > 0 ==> 2 * limit < len
    ensures percent ==> 10 * limit <= len < 10 * (limit + 1)
    ensures !percent ==> limit == 0
  {
    if percent then len / 10 else 0
  }

  /** The sorted copy of the samples with `limit` dropped from each end. */
  function Window(b: BenchmarkHelper, percent: bool): (w: seq<int>)
    ensures |w| == |b.values| - 2 * TrimLimit(|b.values|, percent)
    ensures !percent ==> w == Sort(b.values)
  {
    var sorted := Sort(b.values);
    var limit := TrimLimit(|sorted|, percent);
    sorted[limit..|sorted| - limit]
  }

  /**
    The average as a fraction: the sum of the trimmed window over its length.
    The samples themselves are untouched; only a sorted copy is summed.
   */
  function Average(b: BenchmarkHelper, percent: bool): (m: Mean)
    ensures m.denominator == |b.values| - 2 * TrimLimit(|b.values|, percent)
    ensures |b.values| > 0 ==> m.denominator > 0
    ensures !percent ==> m == Mean(Sum(b.values), |b.values|)
  {
    var w := Window(b, percent);
    SumOfPermutation(Sort(b.values), b.values);
    Mean(Sum(w), |w|)
  }

  /** Loop form of the sum over `s[lo..hi]`, as an iterator sum walks it. */
  method SumWindow(s: seq<int>, lo: nat, hi: nat) returns (total: int)
    requires lo <= hi <= |s|
    ensures total == Sum(s[lo..hi])
  {
    total := 0;
    var i := lo;
    while i < hi
      invariant lo <= i <= hi
      invariant total == Sum(s[lo..i])
    {
      assert s[lo..i + 1] == s[lo..i] + [s[i]];
      SumConcat(s[lo..i], [s[i]]);
      total := total + s[i];
      i := i + 1;
    }
  }

  /** The average depends only on which samples were stored, not on the order they arrived in. */
  lemma AverageIgnoresOrder(a: BenchmarkHelper, b: BenchmarkHelper, percent: bool)
    requires multiset(a.values) == multiset(b.values)
    ensures Average(a, percent) == Average(b, percent)
  {
    var sa, sb := Sort(a.values), Sort(b.values);
    SortedPermutationUnique(sa, sb);
    assert |a.values| == |b.values| by {
      assert |a.values| == |sa| && |sb| == |b.values|;
    }
    assert Window(a, percent) == Window(b, percent);
  }

  /**
    The trimmed numerator is the sum of all samples less the `limit` smallest
    and the `limit` largest of them: cut any sorted arrangement of the samples
    into `low`, `mid` and `high` with `limit` samples at each end, and the
    average is the sum of `mid` over its length.
   */
  lemma AverageDropsExtremes(b: BenchmarkHelper, percent: bool, low: seq<int>, mid: seq<int>, high: seq<int>)
    requires Sorted(low + mid + high) && multiset(low + mid + high) == multiset(b.values)
    requires |low| == |high| == TrimLimit(|b.values|, percent)
    ensures Average(b, percent) == Mean(Sum(b.values) - Sum(low) - Sum(high), |mid|)
  {
    WindowIsMiddle(b, percent, low, mid, high);
    SumOfMiddle(b.values, low, mid, high);
  }

  /** The window `average` sums is the middle piece of any such cut. */
  lemma WindowIsMiddle(b: BenchmarkHelper, percent: bool, low: seq<int>, mid: seq<int>, high: seq<int>)
    requires Sorted(low + mid + high) && multiset(low + mid + high) == multiset(b.values)
    requires |low| == |high| == TrimLimit(|b.values|, percent)
    ensures Window(b, percent) == mid
  {
    var r := low + mid + high;
    assert |r| == |b.values| by {
      assert |r| == |multiset(r)| == |multiset(b.values)|;
    }
    assert Sort(b.values) == r by {
      SortedPermutationUnique(Sort(b.values), r);
    }
    MiddleOfConcat(low, mid, high);
  }

  /** The trimmed window keeps only stored samples, so it keeps their bounds. */
  lemma WindowInRange(b: BenchmarkHelper, percent: bool, lo: int, hi: int)
    requires forall i :: 0 <= i < |b.values| ==> lo <= b.values[i] <= hi
    ensures forall k :: 0 <= k < |Window(b, percent)| ==> lo <= Window(b, percent)[k] <= hi
  {
    var sorted := Sort(b.values);
    var limit := TrimLimit(|sorted|, percent);
    var w := Window(b, percent);
    PermutationInRange(sorted, b.values, lo, hi);
    SliceInRange(sorted, limit, |sorted| - limit, lo, hi);
    assert w == sorted[limit..|sorted| - limit];
  }

  /** When every sample lies in `[lo, hi]`, so does the average: `lo * d <= n <= hi * d`. */
  lemma AverageWithinSampleRange(b: BenchmarkHelper, percent: bool, lo: int, hi: int)
    requires forall i :: 0 <= i < |b.values| ==> lo <= b.values[i] <= hi
    ensures lo * Average(b, percent).denominator <= Average(b, percent).numerator <= hi * Average(b, percent).denominator
  {
    var w := Window(b, percent);
    WindowInRange(b, percent, lo, hi);
    SumBounds(w, lo, hi);
    assert Average(b, percent) == Mean(Sum(w), |w|);
  }

  /** An empty helper yields `0 / 0`, which the floating-point division turns into NaN. */
  lemma AverageOfEmpty(b: BenchmarkHelper, percent: bool)
    requires b.values == []
    ensures Average(b, percent) == Mean(0, 0)
  {
  }
}
