/** Vocabulary shared by the randomness tests: the two verdicts, the p-value
    the chi-square distribution yields, the two decision rules the tests use,
    the Python exceptions a test can raise, and sums over samples. */
module Statistics {

  datatype Verdict = Accepted | Rejected

  /** A floating-point p-value as the library returns it: a number, or NaN
      (the chi-square distribution is undefined for fewer than one degree of
      freedom, and the library then answers NaN rather than raising). */
  datatype PValue = Num(value: real) | NaN

  /** The Python exceptions the modelled functions can raise. */
  datatype PyError = ValueError | ZeroDivisionError | IndexError

  /** A call that returns a value or raises. */
  datatype Result<T> = Ok(value: T) | Raises(error: PyError)

  /** Python's `p > alpha` on a float: false whenever `p` is NaN. */
  predicate Above(p: PValue, alpha: real) {
    p.Num? && p.value > alpha
  }

  /** Python's `p <= alpha` on a float: false whenever `p` is NaN. */
  predicate AtMost(p: PValue, alpha: real) {
    p.Num? && p.value <= alpha
  }

  /** `1 - chi2.cdf(stat, df)`, where `cdf` stands for the library's
      chi-square CDF on the degrees of freedom where it is defined. */
  function ChiSquarePValue(cdf: (real, int) -> real, stat: real, df: int): (p: PValue)
    ensures p.Num? <==> df >= 1
  {
    if df >= 1 then Num(1.0 - cdf(stat, df)) else NaN
  }

  /** `"Accepted" if p_value > alpha else "Rejected"` (gap and poker tests). */
  function AcceptIfAbove(p: PValue, alpha: real): (v: Verdict)
    ensures v == Accepted <==> Above(p, alpha)
  {
    if Above(p, alpha) then Accepted else Rejected
  }

  /** `Reject if p_value <= level else Accept` (chi-square and
      Kolmogorov-Smirnov tests). */
  function RejectIfAtMost(p: PValue, level: real): (v: Verdict)
    ensures v == Rejected <==> AtMost(p, level)
  {
    if AtMost(p, level) then Rejected else Accepted
  }

  /** The two decision rules agree on every numeric p-value ... */
  lemma RulesAgreeOnNumbers(p: PValue, alpha: real)
    requires p.Num?
    ensures AcceptIfAbove(p, alpha) == RejectIfAtMost(p, alpha)
  {
  }

  /** ... and disagree on NaN: one rejects it, the other accepts it. */
  lemma RulesDisagreeOnNaN(alpha: real)
    ensures AcceptIfAbove(NaN, alpha) == Rejected
    ensures RejectIfAtMost(NaN, alpha) == Accepted
  {
  }

  /** Sum of a sequence of reals, accumulated left to right. */
  function Sum(xs: seq<real>): real
  {
    if xs == [] then 0.0 else Sum(xs[..|xs| - 1]) + xs[|xs| - 1]
  }

  /** Sum of a sequence of integers (counts, gap lengths). */
  function SumInt(xs: seq<int>): int
  {
    if xs == [] then 0 else SumInt(xs[..|xs| - 1]) + xs[|xs| - 1]
  }

  lemma {:induction false} SumIntAppend(xs: seq<int>, ys: seq<int>)
    ensures SumInt(xs + ys) == SumInt(xs) + SumInt(ys)
    decreases |ys|
  {
    if ys == [] {
      assert xs + ys == xs;
    } else {
      assert (xs + ys)[..|xs + ys| - 1] == xs + ys[..|ys| - 1];
      SumIntAppend(xs, ys[..|ys| - 1]);
    }
  }

  lemma {:induction false} SumIntUpdate(xs: seq<int>, i: nat, v: int)
    requires i < |xs|
    ensures SumInt(xs[i := v]) == SumInt(xs) - xs[i] + v
    decreases |xs|
  {
    var ys := xs[i := v];
    if i < |xs| - 1 {
      assert ys[..|ys| - 1] == xs[..|xs| - 1][i := v];
      SumIntUpdate(xs[..|xs| - 1], i, v);
    } else {
      assert ys[..|ys| - 1] == xs[..|xs| - 1];
    }
  }

  /** x^2; products of reals are kept behind these two functions so that
      the solver reasons about them through the lemmas below. */
  function Square(x: real): real
  {
    x * x
  }

  function Product(a: real, b: real): real
  {
    a * b
  }

  lemma ProductPositive(a: real, b: real)
    requires (a > 0.0 && b > 0.0) || (a < 0.0 && b < 0.0)
    ensures Product(a, b) > 0.0
  {
  }

  lemma ProductNegative(a: real, b: real)
    requires (a < 0.0 && b > 0.0) || (a > 0.0 && b < 0.0)
    ensures Product(a, b) < 0.0
  {
  }

  lemma ProductZero(a: real, b: real)
    requires a == 0.0 || b == 0.0
    ensures Product(a, b) == 0.0
  {
  }

  /** A sum of terms that are never negative is never negative, and it is
      zero exactly when every term is. */
  lemma {:induction false} SumNonNegative(xs: seq<real>)
    requires forall i :: 0 <= i < |xs| ==> xs[i] >= 0.0
    ensures Sum(xs) >= 0.0
    ensures Sum(xs) == 0.0 <==> forall i :: 0 <= i < |xs| ==> xs[i] == 0.0
    decreases |xs|
  {
    if xs != [] {
      var init := xs[..|xs| - 1];
      assert forall i :: 0 <= i < |init| ==> init[i] == xs[i];
      SumNonNegative(init);
    }
  }

  /** A square is never negative, and it is zero only for zero. */
  lemma SquareSign(x: real)
    ensures Square(x) >= 0.0
    ensures Square(x) == 0.0 <==> x == 0.0
  {
    assert Square(x) == Product(x, x);
    if x != 0.0 {
      ProductPositive(x, x);
    }
  }

  lemma QuotientSign(a: real, b: real)
    requires a >= 0.0 && b > 0.0
    ensures a / b >= 0.0
    ensures a / b == 0.0 <==> a == 0.0
  {
  }

  /** One cell of Pearson's statistic: (observed - expected)^2 / expected. */
  function ChiSquareTerm(observed: real, expected: real): real
    requires expected != 0.0
  {
    Square(observed - expected) / expected
  }

  lemma ChiSquareTermSign(observed: real, expected: real)
    requires expected > 0.0
    ensures ChiSquareTerm(observed, expected) >= 0.0
    ensures ChiSquareTerm(observed, expected) == 0.0 <==> observed == expected
  {
    SquareSign(observed - expected);
    QuotientSign(Square(observed - expected), expected);
  }

  /** Pearson's statistic: the sum over all cells of their terms, accumulated
      left to right, as `chi_square_test`'s accumulation loop and
      `poker_test`'s `sum` over `counts.values()` do. */
  function ChiSquareSum(observed: seq<nat>, expected: real): real
    requires expected != 0.0
  {
    if observed == [] then 0.0
    else ChiSquareSum(observed[..|observed| - 1], expected)
         + ChiSquareTerm(observed[|observed| - 1] as real, expected)
  }

  /** Pearson's statistic is never negative, and it is zero exactly when every
      cell holds the expected count. */
  lemma {:induction false} ChiSquareSumZeroIff(observed: seq<nat>, expected: real)
    requires expected > 0.0
    ensures ChiSquareSum(observed, expected) >= 0.0
    ensures ChiSquareSum(observed, expected) == 0.0
            <==> forall i :: 0 <= i < |observed| ==> observed[i] as real == expected
    decreases |observed|
  {
    if observed != [] {
      var init := observed[..|observed| - 1];
      var last := observed[|observed| - 1];
      ChiSquareSumZeroIff(init, expected);
      ChiSquareTermSign(last as real, expected);
      if ChiSquareSum(observed, expected) == 0.0 {
        forall i | 0 <= i < |observed| ensures observed[i] as real == expected {
          if i < |observed| - 1 {
            assert observed[i] == init[i];
          }
        }
      }
      if forall i :: 0 <= i < |observed| ==> observed[i] as real == expected {
        assert forall i :: 0 <= i < |init| ==> init[i] == observed[i];
      }
    }
  }
}
