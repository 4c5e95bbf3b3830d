/** The gap test: scan the sample for values inside the inclusive target
    range [low, high], record the number of values outside it between each
    pair of successive hits, and compare the total against the number of gaps
    with a chi-square statistic. */
module GapTest {
  import opened Statistics

  /** `low <= number <= high`: inclusive at both ends. */
  predicate InRange(x: real, low: real, high: real) {
    low <= x <= high
  }

  predicate StrictlyIncreasing(h: seq<nat>) {
    forall j, k :: 0 <= j < k < |h| ==> h[j] < h[k]
  }

  /** The positions of the hits, in the order the scan meets them. */
  function Hits(s: seq<real>, low: real, high: real): (h: seq<nat>)
    ensures |h| <= |s|
  {
    if s == [] then []
    else Hits(s[..|s| - 1], low, high) + (if InRange(s[|s| - 1], low, high) then [|s| - 1] else [])
  }

  /** The hits are exactly the indices of the values in [low, high], listed
      in increasing order. */
  lemma {:induction false} HitsAreInRangeIndices(s: seq<real>, low: real, high: real)
    ensures StrictlyIncreasing(Hits(s, low, high))
    ensures forall j :: 0 <= j < |Hits(s, low, high)| ==>
      Hits(s, low, high)[j] < |s| && InRange(s[Hits(s, low, high)[j]], low, high)
    ensures forall i :: 0 <= i < |s| && InRange(s[i], low, high) ==> i in Hits(s, low, high)
  {
    if s != [] {
      var init := s[..|s| - 1];
      HitsAreInRangeIndices(init, low, high);
      assert forall i :: 0 <= i < |init| ==> init[i] == s[i];
    }
  }

  /** The gap between each pair of successive hits: how many positions lie
      strictly between them. */
  function GapsBetween(h: seq<nat>): (g: seq<int>)
    ensures |g| == if h == [] then 0 else |h| - 1
  {
    if |h| <= 1 then [] else seq(|h| - 1, j requires 0 <= j < |h| - 1 => h[j + 1] as int - h[j] as int - 1)
  }

  lemma GapsBetweenSnoc(h: seq<nat>, x: nat)
    ensures h != [] ==> GapsBetween(h + [x]) == GapsBetween(h) + [x - h[|h| - 1] - 1]
    ensures h == [] ==> GapsBetween(h + [x]) == []
  {
    var hx := h + [x];
    if h != [] {
      var g, gx := GapsBetween(h), GapsBetween(hx);
      assert |gx| == |g| + 1;
      forall j | 0 <= j < |gx| ensures gx[j] == (g + [x - h[|h| - 1] - 1])[j] {
        if j < |g| {
          assert hx[j] == h[j] && hx[j + 1] == h[j + 1];
        }
      }
    }
  }

  lemma HitsSnoc(s: seq<real>, x: real, low: real, high: real)
    ensures Hits(s + [x], low, high)
         == Hits(s, low, high) + (if InRange(x, low, high) then [|s|] else [])
  {
    assert (s + [x])[..|s|] == s;
  }

  /** The scanning loop of `gap_test`: `in_range` says a hit has been seen,
      `gap` counts the values outside the range since the latest hit, and
      each new hit after the first appends that count to `gaps`. */
  method ScanGaps(numbers: seq<real>, low: real, high: real) returns (gaps: seq<nat>)
    ensures gaps == GapsBetween(Hits(numbers, low, high))
  {
    gaps := [];
    var gap: nat := 0;
    var inRange := false;
    ghost var hits: seq<nat> := [];
    for i := 0 to |numbers|
      invariant hits == Hits(numbers[..i], low, high)
      invariant inRange <==> hits != []
      invariant gaps == GapsBetween(hits)
      invariant inRange ==> gap == i - hits[|hits| - 1] - 1
      invariant !inRange ==> gap == 0
    {
      var number := numbers[i];
      assert numbers[..i + 1] == numbers[..i] + [number];
      HitsSnoc(numbers[..i], number, low, high);
      if low <= number <= high {
        GapsBetweenSnoc(hits, i);
        if inRange {
          gaps := gaps + [gap];
          gap := 0;
        }
        inRange := true;
        hits := hits + [i];
      } else {
        if inRange {
          gap := gap + 1;
        }
      }
    }
    assert numbers[..|numbers|] == numbers;
  }

  /** How many values with index in [start, stop) lie outside [low, high]. */
  function CountOutside(s: seq<real>, low: real, high: real, start: nat, stop: nat): (c: nat)
    requires stop <= |s|
    ensures c <= (if start <= stop then stop - start else 0)
    decreases stop
  {
    if stop <= start then 0
    else CountOutside(s, low, high, start, stop - 1) + (if InRange(s[stop - 1], low, high) then 0 else 1)
  }

  lemma {:induction false} CountOutsideSplit(s: seq<real>, low: real, high: real, a: nat, b: nat, c: nat)
    requires a <= b <= c <= |s|
    ensures CountOutside(s, low, high, a, c)
         == CountOutside(s, low, high, a, b) + CountOutside(s, low, high, b, c)
    decreases c
  {
    if b < c {
      CountOutsideSplit(s, low, high, a, b, c - 1);
    }
  }

  lemma {:induction false} CountOutsideAll(s: seq<real>, low: real, high: real, a: nat, b: nat)
    requires a <= b <= |s|
    requires forall i :: a <= i < b ==> !InRange(s[i], low, high)
    ensures CountOutside(s, low, high, a, b) == b - a
    decreases b
  {
    if a < b {
      CountOutsideAll(s, low, high, a, b - 1);
    }
  }

  /** Each recorded gap is the number of values outside the range between
      two successive hits (the first of the two is inside the range, so it
      may be counted or not); adjacent hits record a gap of 0. */
  lemma GapIsOutsideRun(s: seq<real>, low: real, high: real, j: nat)
    requires j + 1 < |Hits(s, low, high)|
    ensures var h := Hits(s, low, high);
      h[j] < h[j + 1] < |s| &&
      GapsBetween(h)[j] == CountOutside(s, low, high, h[j] + 1, h[j + 1]) &&
      GapsBetween(h)[j] == CountOutside(s, low, high, h[j], h[j + 1]) &&
      (h[j + 1] == h[j] + 1 ==> GapsBetween(h)[j] == 0)
  {
    var h := Hits(s, low, high);
    HitsAreInRangeIndices(s, low, high);
    forall i | h[j] + 1 <= i < h[j + 1] ensures i !in h {
      forall k | 0 <= k < |h| ensures h[k] != i {
        if k <= j {
          assert h[k] <= h[j];
        } else {
          assert h[j + 1] <= h[k];
        }
      }
    }
    CountOutsideAll(s, low, high, h[j] + 1, h[j + 1]);
    CountOutsideSplit(s, low, high, h[j], h[j] + 1, h[j + 1]);
  }

  /** The gaps recorded up to the `m`-th hit add up to the values outside
      the range between the first hit and that one. */
  lemma {:induction false} GapPrefixSum(s: seq<real>, low: real, high: real, m: nat)
    requires 1 <= m <= |Hits(s, low, high)|
    ensures var h := Hits(s, low, high);
      h[0] <= h[m - 1] < |s| && (m >= 2 ==> h[0] < h[m - 1]) &&
      SumInt(GapsBetween(h)[..m - 1]) == CountOutside(s, low, high, h[0] + 1, h[m - 1])
    decreases m
  {
    var h := Hits(s, low, high);
    var g := GapsBetween(h);
    if m == 1 {
      HitsAreInRangeIndices(s, low, high);
    } else {
      GapPrefixSum(s, low, high, m - 1);
      GapIsOutsideRun(s, low, high, m - 2);
      assert g[..m - 1] == g[..m - 2] + [g[m - 2]];
      SumIntAppend(g[..m - 2], [g[m - 2]]);
      assert SumInt([g[m - 2]]) == g[m - 2];
      if m > 2 {
        CountOutsideSplit(s, low, high, h[0] + 1, h[m - 2], h[m - 1]);
      }
    }
  }

  /** The gaps add up to the number of values outside the range strictly
      between the first and the last hit: the run before the first hit and
      the run after the last one are never counted. */
  lemma GapSumIsOutsideBetweenHits(s: seq<real>, low: real, high: real)
    requires Hits(s, low, high) != []
    ensures var h := Hits(s, low, high);
      h[|h| - 1] < |s| &&
      SumInt(GapsBetween(h)) == CountOutside(s, low, high, h[0] + 1, h[|h| - 1])
  {
    var h := Hits(s, low, high);
    GapPrefixSum(s, low, high, |h|);
    assert GapsBetween(h)[..|h| - 1] == GapsBetween(h);
  }

  /** The first element of `gap_test`'s result. */
  datatype GapVerdict = NotEnoughGaps | Decided(verdict: Verdict)

  /** `gap_test`'s result tuple: verdict, number of gaps, mean gap,
      chi-square statistic and p-value. */
  datatype GapReport = GapReport(result: GapVerdict, k: nat, meanGap: real, statistic: real, pValue: PValue)

  /** The tail of `gap_test`, after the scan: with no gap it answers the
      fixed tuple `("Not enough gaps", 0, 0, 0, 1)`; otherwise it compares
      the total of the gaps with their number. */
  function Summarize(gaps: seq<int>, alpha: real, cdf: (real, int) -> real): (r: GapReport)
    ensures gaps == [] ==> r == GapReport(NotEnoughGaps, 0, 0.0, 0.0, Num(1.0))
    ensures gaps != [] ==>
      && r.k == |gaps|
      && r.meanGap * (|gaps| as real) == SumInt(gaps) as real
      && r.statistic * (|gaps| as real) == Square((SumInt(gaps) - |gaps|) as real)
      && r.statistic >= 0.0
      && (r.statistic == 0.0 <==> r.meanGap == 1.0)
      && r.pValue.Num?
      && r.pValue == ChiSquarePValue(cdf, r.statistic, if |gaps| >= 2 then |gaps| - 1 else 1)
      && (r.result == Decided(Accepted) <==> r.pValue.value > alpha)
      && (r.result == Decided(Rejected) <==> r.pValue.value <= alpha)
  {
    if gaps == [] then GapReport(NotEnoughGaps, 0, 0.0, 0.0, Num(1.0))
    else
      var k := |gaps|;
      var observed := SumInt(gaps);
      var expected := k;
      var meanGap := observed as real / k as real;
      var stat := if expected != 0 then ChiSquareTerm(observed as real, expected as real) else 0.0;
      var df := if k - 1 >= 1 then k - 1 else 1;
      var p := ChiSquarePValue(cdf, stat, df);
      ChiSquareTermSign(observed as real, k as real);
      MeanIsOne(observed as real, k as real);
      GapReport(Decided(AcceptIfAbove(p, alpha)), k, meanGap, stat, p)
  }

  lemma MeanIsOne(total: real, k: real)
    requires k > 0.0
    ensures (total / k) * k == total
    ensures Square(total - k) / k * k == Square(total - k)
    ensures total / k == 1.0 <==> total == k
  {
  }

  /** `gap_test(numbers, alpha, low, high)`: the scan, then the summary of
      the gaps it found. */
  method RunGapTest(numbers: seq<real>, alpha: real, low: real, high: real, cdf: (real, int) -> real)
    returns (r: GapReport)
    ensures r == Summarize(GapsBetween(Hits(numbers, low, high)), alpha, cdf)
  {
    var gaps := ScanGaps(numbers, low, high);
    r := Summarize(gaps, alpha, cdf);
  }

  /** The test finds no gap exactly when fewer than two values of the sample
      lie in the range. */
  lemma NoGapsIffFewerThanTwoHits(s: seq<real>, low: real, high: real)
    ensures GapsBetween(Hits(s, low, high)) == []
        <==> !exists i, j :: 0 <= i < j < |s| && InRange(s[i], low, high) && InRange(s[j], low, high)
  {
    var h := Hits(s, low, high);
    HitsAreInRangeIndices(s, low, high);
    if exists i, j :: 0 <= i < j < |s| && InRange(s[i], low, high) && InRange(s[j], low, high) {
      var i, j :| 0 <= i < j < |s| && InRange(s[i], low, high) && InRange(s[j], low, high);
      assert i in h && j in h;
      var a :| 0 <= a < |h| && h[a] == i;
      var b :| 0 <= b < |h| && h[b] == j;
      assert a != b;
    }
    if |h| >= 2 {
      assert InRange(s[h[0]], low, high) && InRange(s[h[1]], low, high);
    }
  }

  /** A sample with hits at positions 1 and 4 of six: the leading and the
      trailing value outside the range are ignored, and the two between the
      hits make the single gap 2. */
  lemma LeadingAndTrailingRunsIgnored()
    ensures GapsBetween(Hits([0.9, 0.5, 0.9, 0.9, 0.5, 0.9], 0.4, 0.6)) == [2]
  {
    var s := [0.9, 0.5, 0.9, 0.9, 0.5, 0.9];
    HitsSnoc([], 0.9, 0.4, 0.6);
    HitsSnoc(s[..1], 0.5, 0.4, 0.6);
    HitsSnoc(s[..2], 0.9, 0.4, 0.6);
    HitsSnoc(s[..3], 0.9, 0.4, 0.6);
    HitsSnoc(s[..4], 0.5, 0.4, 0.6);
    HitsSnoc(s[..5], 0.9, 0.4, 0.6);
    assert [] + [0.9] == s[..1] && s[..1] + [0.5] == s[..2] && s[..2] + [0.9] == s[..3];
    assert s[..3] + [0.9] == s[..4] && s[..4] + [0.5] == s[..5] && s[..5] + [0.9] == s;
  }
}
