/** The autocorrelation test: the lag-`lag` autocorrelation estimate rho of
    the sample, scaled by the square root of the number of lagged pairs, is
    compared in absolute value with the normal critical value. */
module Autocorrelation {
  import opened Statistics

  /** The critical value `Z_alpha`: a number, or the infinity the test falls
      back to when the inverse error function raises ValueError. */
  datatype Critical = Finite(value: real) | Infinity

  /** The first element of `autocorrelation_test`'s result. */
  datatype ACVerdict = InvalidLag | Decided(verdict: Verdict)

  /** `autocorrelation_test`'s result: verdict, rho, Z0 and Z_alpha. */
  datatype ACReport = ACReport(result: ACVerdict, rho: real, z0: real, zAlpha: Critical)

  /** `np.mean(numbers)` */
  function Mean(xs: seq<real>): real
    requires xs != []
  {
    Sum(xs) / |xs| as real
  }

  /** The terms `(numbers[i] - mean) * (numbers[i + lag] - mean)` for `i` in
      `range(n - lag)`. */
  function LagProducts(xs: seq<real>, mean: real, lag: nat): (ts: seq<real>)
    requires lag < |xs|
    ensures |ts| == |xs| - lag
  {
    seq(|xs| - lag, i requires 0 <= i < |xs| - lag => Product(xs[i] - mean, xs[i + lag] - mean))
  }

  /** The terms `(numbers[i] - mean) ** 2` for `i` in `range(n)`. */
  function SquaredDeviations(xs: seq<real>, mean: real): (ts: seq<real>)
    ensures |ts| == |xs|
    ensures forall i :: 0 <= i < |ts| ==> ts[i] >= 0.0
  {
    seq(|xs|, i requires 0 <= i < |xs| => SquareSign(xs[i] - mean); Square(xs[i] - mean))
  }

  /** `numerator / denominator if denominator != 0 else 0` */
  function Rho(numerator: real, denominator: real): (rho: real)
    ensures denominator == 0.0 ==> rho == 0.0
    ensures denominator != 0.0 ==> rho * denominator == numerator
  {
    if denominator != 0.0 then numerator / denominator else 0.0
  }

  /** `Z_alpha = sqrt(2) * erfinv(1 - alpha)`, with `except ValueError:
      Z_alpha = inf`; any other exception propagates. */
  function CriticalValue(alpha: real, sqrt: real -> real, erfinv: real -> Result<real>): (z: Result<Critical>)
    ensures erfinv(1.0 - alpha) == Raises(ValueError) ==> z == Ok(Infinity)
    ensures erfinv(1.0 - alpha).Ok? ==> z == Ok(Finite(Product(sqrt(2.0), erfinv(1.0 - alpha).value)))
    ensures erfinv(1.0 - alpha).Raises? && erfinv(1.0 - alpha).error != ValueError
            ==> z == Raises(erfinv(1.0 - alpha).error)
  {
    match erfinv(1.0 - alpha)
    case Ok(e) => Ok(Finite(Product(sqrt(2.0), e)))
    case Raises(ValueError) => Ok(Infinity)
    case Raises(err) => Raises(err)
  }

  /** `abs(Z0) < Z_alpha`; every finite number is below infinity. */
  predicate Below(z0: real, zAlpha: Critical) {
    zAlpha.Infinity? || (if z0 < 0.0 then -z0 else z0) < zAlpha.value
  }

  /** What `autocorrelation_test(numbers, lag, alpha)` returns or raises.
      `sqrt` and `erfinv` stand for the library functions. */
  function AutocorrelationTest(numbers: seq<real>, lag: int, alpha: real,
                               sqrt: real -> real, erfinv: real -> Result<real>): (r: Result<ACReport>)
    ensures lag >= |numbers| ==> r == Ok(ACReport(InvalidLag, 0.0, 0.0, Finite(0.0)))
    ensures lag < 0 ==> r == Raises(IndexError)
    ensures 0 <= lag < |numbers| ==>
      (r.Raises? <==> CriticalValue(alpha, sqrt, erfinv).Raises?)
    ensures 0 <= lag < |numbers| && r.Ok? ==> r.value.result.Decided?
    ensures r.Ok? && r.value.result.Decided? ==>
      && 0 <= lag < |numbers|
      && r.value.zAlpha == CriticalValue(alpha, sqrt, erfinv).value
      && (r.value.result == Decided(Accepted) <==> Below(r.value.z0, r.value.zAlpha))
  {
    var n := |numbers|;
    if lag >= n then Ok(ACReport(InvalidLag, 0.0, 0.0, Finite(0.0)))
    else if lag < 0 then Raises(IndexError)  // numbers[i] runs past the end of the list
    else
      var mean := Mean(numbers);
      var numerator := Sum(LagProducts(numbers, mean, lag));
      var denominator := Sum(SquaredDeviations(numbers, mean));
      var rho := Rho(numerator, denominator);
      var z0 := Product(rho, sqrt((n - lag) as real));
      match CriticalValue(alpha, sqrt, erfinv)
      case Raises(err) => Raises(err)
      case Ok(zAlpha) =>
        Ok(ACReport(Decided(if Below(z0, zAlpha) then Accepted else Rejected), rho, z0, zAlpha))
  }

  /** The denominator is never negative, and it is zero exactly when every
      value equals the mean. */
  lemma DenominatorSign(xs: seq<real>, mean: real)
    ensures Sum(SquaredDeviations(xs, mean)) >= 0.0
    ensures Sum(SquaredDeviations(xs, mean)) == 0.0
            <==> forall i :: 0 <= i < |xs| ==> xs[i] == mean
  {
    var ts := SquaredDeviations(xs, mean);
    SumNonNegative(ts);
    forall i | 0 <= i < |xs| ensures ts[i] == 0.0 <==> xs[i] == mean {
      SquareSign(xs[i] - mean);
    }
  }

  /** With the sample mean, a zero denominator happens exactly for a
      constant sample. */
  lemma ZeroDenominatorIffConstant(xs: seq<real>)
    requires xs != []
    ensures Sum(SquaredDeviations(xs, Mean(xs))) == 0.0
            <==> forall i :: 0 <= i < |xs| ==> xs[i] == xs[0]
  {
    var mean := Mean(xs);
    DenominatorSign(xs, mean);
    if forall i :: 0 <= i < |xs| ==> xs[i] == xs[0] {
      SumOfConstant(xs, xs[0]);
      MeanOfConstant(Sum(xs), |xs| as real, xs[0]);
    }
  }

  lemma {:induction false} SumOfConstant(xs: seq<real>, c: real)
    requires forall i :: 0 <= i < |xs| ==> xs[i] == c
    ensures Sum(xs) == Product(|xs| as real, c)
    decreases |xs|
  {
    if xs != [] {
      var init := xs[..|xs| - 1];
      SumOfConstant(init, c);
      ProductStep(|init| as real, c);
    }
  }

  lemma ProductStep(k: real, c: real)
    ensures Product(k, c) + c == Product(k + 1.0, c)
  {
  }

  lemma MeanOfConstant(total: real, n: real, c: real)
    requires n > 0.0 && total == Product(n, c)
    ensures total / n == c
  {
  }

  /** A constant sample has rho = 0 and Z0 = 0. */
  lemma ConstantSampleHasZeroRho(numbers: seq<real>, lag: int, alpha: real,
                                 sqrt: real -> real, erfinv: real -> Result<real>)
    requires 0 <= lag < |numbers|
    requires forall i :: 0 <= i < |numbers| ==> numbers[i] == numbers[0]
    requires AutocorrelationTest(numbers, lag, alpha, sqrt, erfinv).Ok?
    ensures AutocorrelationTest(numbers, lag, alpha, sqrt, erfinv).value.rho == 0.0
    ensures AutocorrelationTest(numbers, lag, alpha, sqrt, erfinv).value.z0 == 0.0
  {
    ZeroDenominatorIffConstant(numbers);
    ProductZero(0.0, sqrt((|numbers| - lag) as real));
  }

  /** Z0 has the sign of rho, since the square root of the positive number
      of lagged pairs is positive. */
  lemma Z0HasSignOfRho(numbers: seq<real>, lag: int, alpha: real,
                       sqrt: real -> real, erfinv: real -> Result<real>)
    requires forall x: real :: x > 0.0 ==> sqrt(x) > 0.0
    requires AutocorrelationTest(numbers, lag, alpha, sqrt, erfinv).Ok?
    requires 0 <= lag < |numbers|
    ensures var r := AutocorrelationTest(numbers, lag, alpha, sqrt, erfinv).value;
      && (r.z0 > 0.0 <==> r.rho > 0.0)
      && (r.z0 < 0.0 <==> r.rho < 0.0)
      && (r.z0 == 0.0 <==> r.rho == 0.0)
  {
    var r := AutocorrelationTest(numbers, lag, alpha, sqrt, erfinv).value;
    var s := sqrt((|numbers| - lag) as real);
    assert r.z0 == Product(r.rho, s);
    if r.rho > 0.0 {
      ProductPositive(r.rho, s);
    } else if r.rho < 0.0 {
      ProductNegative(r.rho, s);
    } else {
      ProductZero(r.rho, s);
    }
  }

  /** Z0 = 0 is accepted whenever the critical value is positive. */
  lemma ZeroZ0Accepted(numbers: seq<real>, lag: int, alpha: real,
                       sqrt: real -> real, erfinv: real -> Result<real>)
    requires AutocorrelationTest(numbers, lag, alpha, sqrt, erfinv).Ok?
    requires AutocorrelationTest(numbers, lag, alpha, sqrt, erfinv).value.result.Decided?
    requires AutocorrelationTest(numbers, lag, alpha, sqrt, erfinv).value.z0 == 0.0
    requires var z := AutocorrelationTest(numbers, lag, alpha, sqrt, erfinv).value.zAlpha;
      z.Infinity? || z.value > 0.0
    ensures AutocorrelationTest(numbers, lag, alpha, sqrt, erfinv).value.result == Decided(Accepted)
  {
  }

  /** At lag 0 every lagged product is a squared deviation, so the
      numerator equals the denominator and rho is 1 for any sample that is
      not constant. */
  lemma LagZeroGivesRhoOne(numbers: seq<real>, alpha: real,
                           sqrt: real -> real, erfinv: real -> Result<real>)
    requires numbers != []
    requires AutocorrelationTest(numbers, 0, alpha, sqrt, erfinv).Ok?
    requires exists i :: 0 <= i < |numbers| && numbers[i] != numbers[0]
    ensures AutocorrelationTest(numbers, 0, alpha, sqrt, erfinv).value.rho == 1.0
  {
    var mean := Mean(numbers);
    var den := Sum(SquaredDeviations(numbers, mean));
    assert LagProducts(numbers, mean, 0) == SquaredDeviations(numbers, mean) by {
      forall i | 0 <= i < |numbers|
        ensures LagProducts(numbers, mean, 0)[i] == SquaredDeviations(numbers, mean)[i]
      {
        assert Product(numbers[i] - mean, numbers[i] - mean) == Square(numbers[i] - mean);
      }
    }
    ZeroDenominatorIffConstant(numbers);
    assert den != 0.0;
    assert Rho(den, den) == 1.0;
  }
}
