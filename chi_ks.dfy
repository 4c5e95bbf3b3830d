/** The chi-square test for uniformity over equal-width intervals, and the
    decision rule of the Kolmogorov-Smirnov test. */
module ChiKs {
  import opened Statistics

  /** `min(numbers)` of a non-empty sample. */
  function Min(xs: seq<real>): (m: real)
    requires xs != []
    ensures m in xs
    ensures forall i :: 0 <= i < |xs| ==> m <= xs[i]
  {
    if |xs| == 1 then xs[0]
    else
      var rest := Min(xs[..|xs| - 1]);
      if xs[|xs| - 1] < rest then xs[|xs| - 1] else rest
  }

  /** `max(numbers)` of a non-empty sample. */
  function Max(xs: seq<real>): (m: real)
    requires xs != []
    ensures m in xs
    ensures forall i :: 0 <= i < |xs| ==> xs[i] <= m
  {
    if |xs| == 1 then xs[0]
    else
      var rest := Max(xs[..|xs| - 1]);
      if xs[|xs| - 1] > rest then xs[|xs| - 1] else rest
  }

  /** `interval_size = (max_val - min_val) / num_intervals` */
  function IntervalSize(lo: real, hi: real, m: nat): (size: real)
    requires m >= 1 && lo < hi
    ensures size > 0.0
  {
    QuotientSign(hi - lo, m as real);
    (hi - lo) / m as real
  }

  /** `min(num_intervals - 1, int((num - min_val) / interval_size))`: the
      quotient is never negative, so `int` truncates it like a floor. */
  function BinIndex(x: real, lo: real, hi: real, m: nat): (b: nat)
    requires m >= 1 && lo < hi && lo <= x
    ensures b < m
  {
    var size := IntervalSize(lo, hi, m);
    QuotientSign(x - lo, size);
    var raw := ((x - lo) / size).Floor;
    if m - 1 <= raw then m - 1 else raw
  }

  /** A value in the k-th interval [lo + k * size, lo + (k + 1) * size)
      lands in bin k, for every bin but the last, which also takes every
      larger value. */
  lemma BinIndexMeaning(x: real, lo: real, hi: real, m: nat)
    requires m >= 1 && lo < hi && lo <= x
    ensures var b := BinIndex(x, lo, hi, m);
      var size := IntervalSize(lo, hi, m);
      && b as real <= (x - lo) / size
      && (b < m - 1 ==> (x - lo) / size < b as real + 1.0)
  {
  }

  /** The maximum itself is clamped into the last interval. */
  lemma MaxInLastBin(lo: real, hi: real, m: nat)
    requires m >= 1 && lo < hi
    ensures BinIndex(hi, lo, hi, m) == m - 1
  {
    var size := IntervalSize(lo, hi, m);
    SizeTimesCount(hi - lo, m as real);
    assert (hi - lo) / size == m as real;
  }

  lemma SizeTimesCount(width: real, m: real)
    requires width > 0.0 && m > 0.0
    ensures width / (width / m) == m
  {
  }

  /** Larger values never land in earlier bins. */
  lemma BinIndexMonotone(x: real, y: real, lo: real, hi: real, m: nat)
    requires m >= 1 && lo < hi && lo <= x <= y
    ensures BinIndex(x, lo, hi, m) <= BinIndex(y, lo, hi, m)
  {
    var size := IntervalSize(lo, hi, m);
    QuotientMonotone(x - lo, y - lo, size);
  }

  lemma QuotientMonotone(a: real, b: real, c: real)
    requires a <= b && c > 0.0
    ensures a / c <= b / c
  {
  }

  predicate AllAtLeast(xs: seq<real>, lo: real) {
    forall i :: 0 <= i < |xs| ==> lo <= xs[i]
  }

  /** The bin of every value, in sample order. */
  function BinIndices(xs: seq<real>, lo: real, hi: real, m: nat): (bs: seq<nat>)
    requires m >= 1 && lo < hi && AllAtLeast(xs, lo)
    ensures |bs| == |xs|
    ensures forall j :: 0 <= j < |bs| ==> bs[j] < m
  {
    seq(|xs|, j requires 0 <= j < |xs| => BinIndex(xs[j], lo, hi, m))
  }

  /** `observed_frequencies` after the values `xs` have been counted: the
      list of `m` zeros with one increment per value. */
  function Histogram(xs: seq<real>, lo: real, hi: real, m: nat): (h: seq<nat>)
    requires m >= 1 && lo < hi && AllAtLeast(xs, lo)
    ensures |h| == m
  {
    if xs == [] then seq(m, _ => 0)
    else
      var prev := Histogram(xs[..|xs| - 1], lo, hi, m);
      var b := BinIndex(xs[|xs| - 1], lo, hi, m);
      prev[b := prev[b] + 1]
  }

  /** Every bin holds the number of values whose index is that bin. */
  lemma {:induction false} HistogramCounts(xs: seq<real>, lo: real, hi: real, m: nat)
    requires m >= 1 && lo < hi && AllAtLeast(xs, lo)
    ensures forall b :: 0 <= b < m ==>
      Histogram(xs, lo, hi, m)[b] == multiset(BinIndices(xs, lo, hi, m))[b]
    decreases |xs|
  {
    if xs != [] {
      var init := xs[..|xs| - 1];
      HistogramCounts(init, lo, hi, m);
      assert BinIndices(xs, lo, hi, m)
          == BinIndices(init, lo, hi, m) + [BinIndex(xs[|xs| - 1], lo, hi, m)];
    }
  }

  lemma {:induction false} SumZeros(m: nat)
    ensures SumInt(seq(m, _ => 0)) == 0
  {
    if m > 0 {
      assert seq(m, _ => 0)[..m - 1] == seq(m - 1, _ => 0);
      SumZeros(m - 1);
    }
  }

  /** The observed frequencies add up to the number of values. */
  lemma {:induction false} HistogramTotal(xs: seq<real>, lo: real, hi: real, m: nat)
    requires m >= 1 && lo < hi && AllAtLeast(xs, lo)
    ensures SumInt(Histogram(xs, lo, hi, m)) == |xs|
    decreases |xs|
  {
    if xs == [] {
      SumZeros(m);
    } else {
      var init := xs[..|xs| - 1];
      HistogramTotal(init, lo, hi, m);
      var prev := Histogram(init, lo, hi, m);
      var b := BinIndex(xs[|xs| - 1], lo, hi, m);
      SumIntUpdate(prev, b, prev[b] + 1);
    }
  }

  /** `chi_square_test`'s result: statistic, degrees of freedom, p-value and
      verdict. */
  datatype ChiReport = ChiReport(statistic: real, degreesOfFreedom: int, pValue: PValue, verdict: Verdict)

  /** The statistic of a sample whose values lie in [lo, hi], counted into
      `m` intervals. */
  function ChiStatistic(numbers: seq<real>, lo: real, hi: real, m: nat): (stat: real)
    requires numbers != [] && m >= 1 && lo < hi && AllAtLeast(numbers, lo)
    ensures stat >= 0.0
  {
    var expected := |numbers| as real / m as real;
    ChiSquareSumZeroIff(Histogram(numbers, lo, hi, m), expected);
    ChiSquareSum(Histogram(numbers, lo, hi, m), expected)
  }

  /** What `chi_square_test(numbers, num_intervals, level_of_significance)`
      returns or raises. */
  function ChiSquareOutcome(numbers: seq<real>, m: int, level: real, cdf: (real, int) -> real): (r: Result<ChiReport>)
    ensures numbers == [] ==> r == Raises(ValueError)
    ensures numbers != [] && m == 0 ==> r == Raises(ZeroDivisionError)
    ensures numbers != [] && m != 0 && Min(numbers) == Max(numbers) ==> r == Raises(ZeroDivisionError)
    ensures numbers != [] && m < 0 && Min(numbers) < Max(numbers) ==> r == Raises(IndexError)
    ensures r.Ok? <==> numbers != [] && m >= 1 && Min(numbers) < Max(numbers)
    ensures r.Ok? ==>
      && r.value.degreesOfFreedom == m - 1
      && r.value.statistic >= 0.0
      && r.value.pValue == ChiSquarePValue(cdf, r.value.statistic, m - 1)
      && (r.value.verdict == Rejected <==> AtMost(r.value.pValue, level))
      && (m == 1 ==> r.value.pValue == NaN && r.value.verdict == Accepted)
  {
    if numbers == [] then Raises(ValueError)
    else
      var lo, hi := Min(numbers), Max(numbers);
      if m == 0 then Raises(ZeroDivisionError)
      else if lo == hi then Raises(ZeroDivisionError)
      else if m < 0 then Raises(IndexError)
      else
        var stat := ChiStatistic(numbers, lo, hi, m);
        var p := ChiSquarePValue(cdf, stat, m - 1);
        Ok(ChiReport(stat, m - 1, p, RejectIfAtMost(p, level)))
  }

  /** The first loop of `chi_square_test`: `observed_frequencies` starts as
      `m` zeros and each value increments the count of its interval. */
  method CountIntervals(numbers: seq<real>, lo: real, hi: real, m: nat) returns (observed: array<nat>)
    requires m >= 1 && lo < hi && AllAtLeast(numbers, lo)
    ensures fresh(observed)
    ensures observed[..] == Histogram(numbers, lo, hi, m)
  {
    observed := new nat[m](_ => 0);
    assert observed[..] == Histogram([], lo, hi, m);
    for i := 0 to |numbers|
      invariant AllAtLeast(numbers[..i], lo)
      invariant observed[..] == Histogram(numbers[..i], lo, hi, m)
    {
      var b := BinIndex(numbers[i], lo, hi, m);
      assert numbers[..i + 1][..i] == numbers[..i];
      observed[b] := observed[b] + 1;
    }
    assert numbers[..|numbers|] == numbers;
  }

  /** The second loop of `chi_square_test`: the statistic accumulated over
      the intervals. */
  method AccumulateStatistic(observed: array<nat>, expected: real) returns (stat: real)
    requires expected != 0.0
    ensures stat == ChiSquareSum(observed[..], expected)
  {
    stat := 0.0;
    for k := 0 to observed.Length
      invariant stat == ChiSquareSum(observed[..k], expected)
    {
      assert observed[..k + 1][..k] == observed[..k];
      stat := stat + ChiSquareTerm(observed[k] as real, expected);
    }
    assert observed[..observed.Length] == observed[..];
  }

  /** `chi_square_test`: the values are counted into `observed_frequencies`
      in place, then the statistic is accumulated bin by bin. */
  method ChiSquareTest(numbers: seq<real>, m: int, level: real, cdf: (real, int) -> real)
    returns (r: Result<ChiReport>)
    ensures r == ChiSquareOutcome(numbers, m, level, cdf)
  {
    if numbers == [] {
      return Raises(ValueError);  // min() of an empty sequence
    }
    var lo, hi := Min(numbers), Max(numbers);
    if m == 0 {
      return Raises(ZeroDivisionError);  // interval_size
    }
    if lo == hi {
      return Raises(ZeroDivisionError);  // the division by interval_size 0
    }
    if m < 0 {
      return Raises(IndexError);  // [0] * num_intervals is empty
    }
    var observed := CountIntervals(numbers, lo, hi, m);
    var stat := AccumulateStatistic(observed, |numbers| as real / m as real);
    var df := m - 1;
    var p := ChiSquarePValue(cdf, stat, df);
    return Ok(ChiReport(stat, df, p, RejectIfAtMost(p, level)));
  }

  /** The statistic is zero exactly when every interval holds `n / m`
      values. */
  lemma StatisticZeroIffEvenlySpread(numbers: seq<real>, lo: real, hi: real, m: nat)
    requires numbers != [] && m >= 1 && lo < hi && AllAtLeast(numbers, lo)
    ensures ChiStatistic(numbers, lo, hi, m) == 0.0
      <==> forall b :: 0 <= b < m ==>
        multiset(BinIndices(numbers, lo, hi, m))[b] as real == |numbers| as real / m as real
  {
    var expected := |numbers| as real / m as real;
    HistogramCounts(numbers, lo, hi, m);
    ChiSquareSumZeroIff(Histogram(numbers, lo, hi, m), expected);
  }

  /** The test's statistic is the statistic of its sample over
      [min, max]. */
  lemma OutcomeStatistic(numbers: seq<real>, m: int, level: real, cdf: (real, int) -> real)
    requires numbers != [] && m >= 1 && Min(numbers) < Max(numbers)
    ensures ChiSquareOutcome(numbers, m, level, cdf).value.statistic
         == ChiStatistic(numbers, Min(numbers), Max(numbers), m)
  {
  }

  /** `ks_test`'s result: the statistic `d`, the p-value and the verdict. */
  datatype KsReport = KsReport(d: real, pValue: PValue, verdict: Verdict)

  /** `ks_test(data, level_of_significance)`: the library test against the
      uniform distribution on [min, max] (location `min`, scale
      `max - min`), rejecting when the p-value is at most the level. */
  function KsTest(data: seq<real>, level: real, kstest: (seq<real>, real, real) -> (real, PValue))
    : (r: Result<KsReport>)
    ensures data == [] <==> r == Raises(ValueError)
    ensures r.Ok? ==>
      var (d, p) := kstest(data, Min(data), Max(data) - Min(data));
      && r.value.d == d && r.value.pValue == p
      && (r.value.verdict == Rejected <==> AtMost(p, level))
  {
    if data == [] then Raises(ValueError)
    else
      var (d, p) := kstest(data, Min(data), Max(data) - Min(data));
      Ok(KsReport(d, p, RejectIfAtMost(p, level)))
  }
}
