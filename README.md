# SIMU randomness tests — a Dafny model

This project models the computational core of SIMU. SIMU is a set of
Python scripts that generate pseudo-random numbers and subject them to
statistical tests of randomness. The modelled parts are:

- the mid-square generator (`midsquare.py`): square the seed, left-pad
  its decimal digits with zeros to twice the digit width, keep the middle
  digits as the next seed, and repeat;
- the gap test (`gaptest.py`): scan the sample for values in the
  inclusive range `[low, high]`, and record how many values lie between
  successive hits. Compare the total of the gaps with their number by a
  chi-square statistic;
- the poker test (`pokertest.py`): reduce each number's decimal text to a
  digit pattern (dots removed, first `precision` characters, sorted).
  Count the patterns, and compare the counts with the uniform expectation;
- the chi-square uniformity test (`chi_ks.py`): count the sample into `m`
  equal-width intervals between its minimum and maximum, then form
  Pearson's statistic. Also modelled is the decision rule of the
  Kolmogorov–Smirnov test in the same file;
- the autocorrelation test (`actest.py`): form the lag-`lag`
  autocorrelation estimate rho and scale it to `Z0 = rho * sqrt(n - lag)`.
  Compare `|Z0|` with the critical value `sqrt(2) * erfinv(1 - alpha)`.

Module layout. There is one module per source file: `MidSquare`,
`GapTest`, `PokerTest`, `ChiKs` and `Autocorrelation`. The shared module
`Statistics` holds what they have in common:

- the verdicts;
- the p-value, which is a number or NaN;
- the Python exceptions a test can raise, carried in a `Result`;
- the two decision rules;
- sums;
- Pearson's statistic.

Code that changes state step by step is modelled as methods with loops.
Each such method is proved equal to a specification function, and
lemmas state what that function means:

- the generator loop is `MidSquare.GenerateRandomNumbers`;
- the gap scan is `GapTest.ScanGaps`;
- the binning and statistic loops of the chi-square test are
  `ChiKs.CountIntervals`, which counts into an `array` in place, and
  `ChiKs.AccumulateStatistic`, both called by `ChiKs.ChiSquareTest`.

The poker and autocorrelation tests are expressions in the source, so
they are modelled as functions.

Library special functions are parameters of the model: `chi2.cdf` is
`cdf`, `stats.kstest` is `kstest`, and `np.sqrt` and `erfinv` are `sqrt`
and `erfinv`. A p-value is `1 - cdf(stat, df)` where the chi-square
distribution is defined (`df >= 1`). Otherwise the library answers NaN,
modelled as `PValue.NaN`. Python's `p > alpha` and `p <= alpha` are both
false for NaN, which the model reproduces:

- the poker test with a single pattern, or with no number at all,
  rejects;
- the chi-square test with one interval accepts.

Behaviour of the scripts worth noting:

- the gap test's range is inclusive at both ends, not half-open;
- the chi-square test raises no error when there are more intervals
  than values;
- a lag at or past the sample size yields the sentinel
  `("Invalid Lag", 0, 0, 0)`, not an error;
- lag 0 is allowed;
- a negative lag raises IndexError;
- the mid-square generator does not check the seed's digit count;
- errors are the exceptions Python raises: ValueError, ZeroDivisionError
  and IndexError.

## Model

| member | source | states |
|---|---|---|
| Statistics.ChiSquarePValue | chi_ks.py:34 | `1 - chi2.cdf(stat, df)` is a number exactly when df >= 1, and NaN below |
| Statistics.AcceptIfAbove | gaptest.py:72 | the verdict is Accepted iff the p-value is a number above alpha |
| Statistics.RejectIfAtMost | chi_ks.py:36-39 | the verdict is Rejected iff the p-value is a number at most the level |
| Statistics.RulesAgreeOnNumbers | chi_ks.py:36-39 | on numeric p-values the two decision rules give the same verdict |
| Statistics.RulesDisagreeOnNaN | chi_ks.py:36-39 | on NaN, "accept if above" rejects while "reject if at most" accepts |
| Statistics.ChiSquareTermSign | chi_ks.py:31 | a cell's term (o - e)^2 / e is never negative, and is zero iff o == e |
| Statistics.ChiSquareSumZeroIff | chi_ks.py:29-31 | Pearson's statistic is >= 0, and it is 0 iff every cell holds exactly the expected count |
| MidSquare.Str | midsquare.py:13 | `str(n)` is a non-empty string of digits, a single digit exactly when n < 10, and never starts with a zero when it has more than one digit |
| MidSquare.Parse | midsquare.py:18 | `int(s)` of k digits is below 10^k |
| MidSquare.ParseStr | midsquare.py:13-18 | `int(str(n)) == n` |
| MidSquare.ZFill | midsquare.py:13 | `zfill(w)` leaves a string of length at least w unchanged in length and pads a shorter one to exactly w |
| MidSquare.ZFillPadsLeft | midsquare.py:13 | the original string is the suffix of the padded one, and every added character is a zero on its left |
| MidSquare.ZFillKeepsValue | midsquare.py:13 | `int(s.zfill(w)) == int(s)` for a string of digits |
| MidSquare.MidWindowInBounds | midsquare.py:13-16 | the padded square has length >= 2 * num_digits, and `[mid_start, mid_start + num_digits)` lies inside it |
| MidSquare.MiddleDigits | midsquare.py:15-18 | the slice has exactly num_digits characters |
| MidSquare.Next | midsquare.py:11-18 | each step yields a value in [0, 10^num_digits) |
| MidSquare.Outputs | midsquare.py:9-19 | the run has exactly `quantity` values, each below 10^num_digits |
| MidSquare.GenerateRandomNumbers | midsquare.py:6-20 | the loop returns `Outputs(seed, num_digits, quantity)`; no output for quantity <= 0; ValueError (`int('')`) when num_digits <= 0 and quantity > 0 |
| MidSquare.OutputsPrefix | midsquare.py:9-19 | a shorter run is a prefix of a longer one |
| MidSquare.OutputsRecurrence | midsquare.py:18-19 | the first output is the step from the seed; every later output is the step from its predecessor |
| MidSquare.ZeroIsFixedPoint | midsquare.py:11-18 | the step maps 0 to 0 |
| MidSquare.ZeroIsAbsorbing | midsquare.py:9-19 | once an output is 0, every later output is 0 |
| MidSquare.StepFrom1234 | midsquare.py:11-18 | 1234 with four digits steps to 5227 (1522756, padded "01522756") |
| MidSquare.Seed1234Example | midsquare.py:6-20 | seed 1234 with four digits yields 5227, 3215, 3362 |
| GapTest.HitsAreInRangeIndices | gaptest.py:50-51 | the hits are strictly increasing and are exactly the indices whose value satisfies `low <= x <= high` |
| GapTest.GapsBetween | gaptest.py:52-55 | h hits give h - 1 gaps (none for no hit) |
| GapTest.ScanGaps | gaptest.py:46-58 | the `in_range`/`gap` loop records exactly the gaps between successive hits |
| GapTest.GapIsOutsideRun | gaptest.py:51-58 | each gap counts the out-of-range values strictly between two successive hits; adjacent hits record 0 |
| GapTest.GapSumIsOutsideBetweenHits | gaptest.py:50-58 | the gaps sum to the out-of-range values strictly between the first and the last hit, so runs before the first and after the last hit are never counted |
| GapTest.NoGapsIffFewerThanTwoHits | gaptest.py:50-61 | there is no gap iff fewer than two values lie in the range |
| GapTest.LeadingAndTrailingRunsIgnored | gaptest.py:50-58 | hits at positions 1 and 4 of six values give the single gap 2 |
| GapTest.Summarize | gaptest.py:60-72 | no gaps gives the sentinel `("Not enough gaps", 0, 0, 0, 1)`; otherwise k is the gap count, the mean times k is the gap total, the statistic times k is (total - k)^2, the statistic is >= 0 and is 0 iff the mean gap is 1, the p-value is `1 - cdf(statistic, max(k - 1, 1))` and so never NaN, and the verdict is Accepted iff p > alpha |
| GapTest.RunGapTest | gaptest.py:44-72 | `gap_test` is the summary of the gaps between the hits of the sample |
| PokerTest.RemoveDots | pokertest.py:39 | `replace('.', '')` leaves no dot and keeps every other character's count; text without dots is unchanged |
| PokerTest.RemoveDotsOfChar | pokertest.py:39 | a single dot is removed and any other single character is kept |
| PokerTest.RemoveDotsConcat | pokertest.py:39 | removing the dots from a concatenation concatenates the results, so the kept characters stay in their original order |
| PokerTest.PrefixLength | pokertest.py:39 | `s[:p]` keeps min(p, len) characters for p >= 0, and max(len + p, 0) for p < 0 |
| PokerTest.PyPrefix | pokertest.py:39 | `s[:p]` is a prefix of s of that length |
| PokerTest.Sort | pokertest.py:40 | the result is sorted and a permutation of the input |
| PokerTest.SortedUnique | pokertest.py:40 | two sorted strings with the same characters are equal, so any correct sort gives `sorted`'s result |
| PokerTest.DigitPatternShape | pokertest.py:38-40 | the pattern is sorted, dot-free, a permutation of the first `precision` digits, of length min(precision, digits) for 0 <= precision |
| PokerTest.SamePatternForRearrangedDigits | pokertest.py:38-40 | texts whose leading digits are rearrangements of each other share a pattern |
| PokerTest.PatternExample | pokertest.py:38-40 | "12.3" and "21.3" at precision 3 both give "123" |
| PokerTest.TallyFacts | pokertest.py:45 | the Counter holds one entry per distinct pattern, each with that pattern's number of occurrences (at least 1), and the counts sum to n |
| PokerTest.UniqueIsDistinctPatterns | pokertest.py:45-47 | `len(counts)` is the number of distinct patterns, at most n and at least 1 for non-empty input |
| PokerTest.UniqueCount | pokertest.py:47 | `unique_patterns` is the number of distinct patterns |
| PokerTest.Patterns | pokertest.py:44 | one pattern per number |
| PokerTest.Expected | pokertest.py:48 | expected times unique_patterns is n when there are patterns; 1 otherwise; always positive |
| PokerTest.RunPokerTest | pokertest.py:42-54 | the statistic is >= 0; the p-value is `1 - cdf(statistic, unique - 1)` for the number of distinct patterns, and is a number iff at least two distinct patterns occur; Accepted iff p > alpha |
| PokerTest.StatisticZeroIffUniform | pokertest.py:48-49 | the statistic is 0 iff every distinct pattern occurs n / unique_patterns times |
| PokerTest.FewerThanTwoPatternsRejected | pokertest.py:51-54 | when all numbers share one pattern (or there are none) the test rejects |
| PokerTest.EmptySample | pokertest.py:43-54 | an empty sample yields statistic 0, NaN p-value, "Rejected" |
| ChiKs.Min | chi_ks.py:19 | `min(numbers)` is an element no greater than any other |
| ChiKs.Max | chi_ks.py:20 | `max(numbers)` is an element no smaller than any other |
| ChiKs.IntervalSize | chi_ks.py:21 | the interval size is positive when min < max |
| ChiKs.BinIndex | chi_ks.py:25 | every bin index lies in [0, m - 1] |
| ChiKs.BinIndexMeaning | chi_ks.py:25 | a value goes to the interval containing it, the last bin also taking the values at its right end |
| ChiKs.MaxInLastBin | chi_ks.py:25 | the maximum is clamped into the last bin, m - 1 |
| ChiKs.BinIndexMonotone | chi_ks.py:25 | a larger value never lands in an earlier bin |
| ChiKs.BinIndices | chi_ks.py:24-25 | one bin index per value, each below m |
| ChiKs.Histogram | chi_ks.py:23-26 | `observed_frequencies` has m entries |
| ChiKs.HistogramCounts | chi_ks.py:23-26 | each bin holds the number of values whose index is that bin |
| ChiKs.HistogramTotal | chi_ks.py:23-26 | the observed frequencies sum to `len(numbers)` |
| ChiKs.ChiStatistic | chi_ks.py:28-31 | the statistic with expected n / m is never negative |
| ChiKs.ChiSquareOutcome | chi_ks.py:17-41 | ValueError for an empty sample, ZeroDivisionError for m == 0 or min == max, IndexError for m < 0; otherwise df = m - 1, statistic >= 0, the p-value is `1 - cdf(statistic, m - 1)`, Rejected iff p <= level, and with m == 1 the p-value is NaN and the test accepts |
| ChiKs.CountIntervals | chi_ks.py:23-26 | starting from m zeros and incrementing one entry per value, the array ends equal to `Histogram` of the sample |
| ChiKs.AccumulateStatistic | chi_ks.py:28-31 | the running total over the array's entries equals the chi-square sum of all its observed counts against the expected count |
| ChiKs.ChiSquareTest | chi_ks.py:17-41 | the error checks, the counting loop and the accumulation loop together compute `ChiSquareOutcome` |
| ChiKs.StatisticZeroIffEvenlySpread | chi_ks.py:28-31 | the statistic is 0 iff every interval holds exactly n / m values |
| ChiKs.OutcomeStatistic | chi_ks.py:28-31 | the test's statistic is that of the sample counted between its minimum and maximum |
| ChiKs.KsTest | chi_ks.py:8-14 | ValueError iff the sample is empty; otherwise d and p come from the library test with location min and scale max - min, and the verdict is Rejected iff p <= level |
| Autocorrelation.LagProducts | actest.py:57 | the numerator sums exactly n - lag lagged products |
| Autocorrelation.SquaredDeviations | actest.py:58 | the denominator sums n squared deviations, each >= 0 |
| Autocorrelation.Rho | actest.py:60 | rho is 0 for a zero denominator and otherwise rho times the denominator is the numerator |
| Autocorrelation.CriticalValue | actest.py:63-66 | Z_alpha is sqrt(2) * erfinv(1 - alpha), infinity when erfinv raises ValueError, and any other exception propagates |
| Autocorrelation.AutocorrelationTest | actest.py:50-69 | lag >= n gives the sentinel `("Invalid Lag", 0, 0, 0)` without consulting the libraries; a negative lag raises IndexError; a valid lag raises only what `erfinv` raises other than ValueError, and otherwise always gives a decided result, Accepted iff abs(Z0) < Z_alpha |
| Autocorrelation.DenominatorSign | actest.py:58 | the denominator is >= 0, and it is 0 iff every value equals the mean |
| Autocorrelation.ZeroDenominatorIffConstant | actest.py:56-58 | the denominator is 0 iff the sample is constant |
| Autocorrelation.ConstantSampleHasZeroRho | actest.py:56-61 | a constant sample gives rho = 0 and Z0 = 0 |
| Autocorrelation.Z0HasSignOfRho | actest.py:61 | for 0 <= lag < n, Z0 has the sign of rho, given that sqrt is positive on positive numbers |
| Autocorrelation.ZeroZ0Accepted | actest.py:68 | Z0 = 0 is accepted whenever Z_alpha is positive or infinite |
| Autocorrelation.LagZeroGivesRhoOne | actest.py:57-60 | at lag 0 the numerator equals the denominator, so rho is 1 for a non-constant sample |

## Left out

- The `generate_random_numbers` functions of `actest.py`, `gaptest.py`, `pokertest.py` and `chi_ks.py`, and all of `randomnumber.py`: they draw from a random source, round floats, write files and print.
- `load_random_numbers` in `actest.py`, `gaptest.py` and `pokertest.py`: file input and float parsing.
- All `get_user_input` functions, `__main__` blocks and console output, including the advisory printed for a zero p-value (`pokertest.py:114-115`).
- `chi_square_test` of `midsquare.py` (lines 22-35): it only hands over to `np.histogram` and `scipy.stats.chisquare`. `plot_histogram` and the `tabulate` tables are also left out.
- `chi2.cdf`, `stats.kstest`, `np.sqrt` and `erfinv` are parameters with no properties, except that `Z0HasSignOfRho` assumes `sqrt` is positive on positive numbers. The Kolmogorov–Smirnov statistic itself is computed entirely by the library.
- Floating point: values are exact reals. The model does not capture rounding, `np.mean`'s summation order, or infinities and NaN among the sample values.
- `PokerTest.DigitPattern` takes the number's decimal text, `str(number)`, as its input. Python's float repr (for example "1e-05") is not modelled.
- Autocorrelation.CriticalValue: `erfinv` is modelled as a value or an exception. SciPy's NaN and infinite results (alpha outside (0, 1)) are not modelled; with alpha in (0, 1), as the input prompt enforces, the result is finite.
- Autocorrelation.AutocorrelationTest: the ensures do not state rho, Z0 or the denominator for general samples; those are covered by the lemmas that follow it. The bound |rho| <= 1 is not proved.
- MidSquare.GenerateRandomNumbers: seeds are integers. Python would also accept a float seed, but `str` of a float is not modelled.
