/** The poker test: every number, given as its decimal text, is reduced to a
    digit pattern (the dots removed, the first `precision` characters kept,
    sorted); the patterns are counted, and the counts are compared with the
    uniform expectation by a chi-square statistic. */
module PokerTest {
  import opened Statistics

  /** `s.replace('.', '')`: every dot removed, the other characters kept in
      order. */
  function RemoveDots(s: string): (r: string)
    ensures '.' !in r
    ensures forall c :: c != '.' ==> multiset(r)[c] == multiset(s)[c]
    ensures '.' !in s ==> r == s
  {
    if s == [] then []
    else
      var init := RemoveDots(s[..|s| - 1]);
      assert s == s[..|s| - 1] + [s[|s| - 1]];
      if s[|s| - 1] == '.' then init else init + [s[|s| - 1]]
  }

  /** Removing the dots works character by character: a dot goes, any other
      character stays, and the kept characters keep their order. */
  lemma RemoveDotsOfChar(c: char)
    ensures RemoveDots([c]) == if c == '.' then [] else [c]
  {
    assert [c][..0] == [];
  }

  lemma {:induction false} RemoveDotsConcat(a: string, b: string)
    ensures RemoveDots(a + b) == RemoveDots(a) + RemoveDots(b)
    decreases |b|
  {
    if b == [] {
      assert a + b == a;
    } else {
      var init := b[..|b| - 1];
      assert (a + b)[..|a + b| - 1] == a + init;
      RemoveDotsConcat(a, init);
    }
  }

  /** The length of Python's `s[:stop]`: a negative stop counts from the end,
      and the slice is clipped to the string. */
  function PrefixLength(len: nat, stop: int): (n: nat)
    ensures n <= len
    ensures stop >= 0 ==> n == if stop <= len then stop else len
    ensures stop < 0 ==> n == if len + stop > 0 then len + stop else 0
  {
    if stop >= 0 then (if stop <= len then stop else len)
    else (if len + stop > 0 then len + stop else 0)
  }

  /** `s[:stop]` */
  function PyPrefix(s: string, stop: int): (r: string)
    ensures |r| == PrefixLength(|s|, stop)
    ensures r <= s
  {
    s[..PrefixLength(|s|, stop)]
  }

  predicate Sorted(s: string) {
    forall i, j :: 0 <= i < j < |s| ==> s[i] <= s[j]
  }

  /** Where `c` goes in the sorted string `s`: after every smaller
      character, before the first that is not smaller. */
  function InsertPos(c: char, s: string): (k: nat)
    requires Sorted(s)
    ensures k <= |s|
    ensures forall i :: 0 <= i < k ==> s[i] < c
    ensures forall i :: k <= i < |s| ==> c <= s[i]
  {
    if s == [] || c <= s[0] then 0 else 1 + InsertPos(c, s[1..])
  }

  function Insert(c: char, s: string): (r: string)
    requires Sorted(s)
    ensures Sorted(r)
    ensures multiset(r) == multiset(s) + multiset{c}
  {
    var k := InsertPos(c, s);
    assert s == s[..k] + s[k..];
    s[..k] + [c] + s[k..]
  }

  /** `sorted(s)`: the characters of `s` in non-decreasing order. */
  function Sort(s: string): (r: string)
    ensures Sorted(r)
    ensures multiset(r) == multiset(s)
  {
    if s == [] then []
    else
      assert s == s[..|s| - 1] + [s[|s| - 1]];
      Insert(s[|s| - 1], Sort(s[..|s| - 1]))
  }

  lemma SortedHead(a: string, x: char)
    requires Sorted(a) && x in multiset(a)
    ensures a[0] <= x && Sorted(a[1..])
  {
    assert x in a;
  }

  lemma MultisetTail(a: string, b: string)
    requires a != [] && multiset(a) == multiset(b)
    ensures b != [] && b[0] in multiset(a) && a[0] in multiset(b)
    ensures a[0] == b[0] ==> multiset(a[1..]) == multiset(b[1..])
  {
    assert |a| == |multiset(a)| == |multiset(b)| == |b|;
    assert a[0] in a && b[0] in b;
    assert a == [a[0]] + a[1..];
    assert b == [b[0]] + b[1..];
    assert multiset(a[1..]) == multiset(a) - multiset{a[0]};
    assert multiset(b[1..]) == multiset(b) - multiset{b[0]};
  }

  /** A sorted arrangement of a multiset of characters is unique: so any
      correct sort, and in particular Python's `sorted`, gives the same
      string as `Sort`. */
  lemma {:induction false} SortedUnique(a: string, b: string)
    requires Sorted(a) && Sorted(b)
    requires multiset(a) == multiset(b)
    ensures a == b
    decreases |a|
  {
    if a != [] {
      MultisetTail(a, b);
      SortedHead(a, b[0]);
      SortedHead(b, a[0]);
      SortedUnique(a[1..], b[1..]);
      assert a == [a[0]] + a[1..] && b == [b[0]] + b[1..];
    }
  }

  /** `get_digit_pattern(number, precision)`, for the decimal text of the
      number. */
  function DigitPattern(text: string, precision: int): (p: string)
  {
    Sort(PyPrefix(RemoveDots(text), precision))
  }

  /** The pattern is sorted, is a rearrangement of the first `precision`
      characters of the dot-free text, and has as many characters as that
      prefix. */
  lemma DigitPatternShape(text: string, precision: int)
    ensures var digits := RemoveDots(text);
      && Sorted(DigitPattern(text, precision))
      && multiset(DigitPattern(text, precision)) == multiset(digits[..PrefixLength(|digits|, precision)])
      && |DigitPattern(text, precision)| == PrefixLength(|digits|, precision)
      && (0 <= precision <= |digits| ==> |DigitPattern(text, precision)| == precision)
      && '.' !in DigitPattern(text, precision)
  {
    var digits := RemoveDots(text);
    var q := PyPrefix(digits, precision);
    var p := DigitPattern(text, precision);
    assert |p| == |multiset(p)| == |multiset(q)| == |q|;
    assert forall i :: 0 <= i < |q| ==> q[i] == digits[i];
    assert '.' !in q;
    assert multiset(p)['.'] == multiset(q)['.'] == 0;
  }

  /** Two texts whose first `precision` digits are rearrangements of each
      other share a pattern. */
  lemma SamePatternForRearrangedDigits(a: string, b: string, precision: int)
    requires multiset(PyPrefix(RemoveDots(a), precision)) == multiset(PyPrefix(RemoveDots(b), precision))
    ensures DigitPattern(a, precision) == DigitPattern(b, precision)
  {
    SortedUnique(DigitPattern(a, precision), DigitPattern(b, precision));
  }

  lemma RemoveDotsExamples()
    ensures RemoveDots("12.3") == "123"
    ensures RemoveDots("21.3") == "213"
  {
    assert "12.3"[..3] == "12." && "12."[..2] == "12" && "12"[..1] == "1" && "1"[..0] == "";
    assert "21.3"[..3] == "21." && "21."[..2] == "21" && "21"[..1] == "2" && "2"[..0] == "";
  }

  /** A text whose three digits are a rearrangement of "123" has the
      pattern "123" at precision 3. */
  lemma PatternOneTwoThree(text: string, digits: string)
    requires RemoveDots(text) == digits && |digits| == 3
    requires multiset(digits) == multiset("123")
    ensures DigitPattern(text, 3) == "123"
  {
    assert PyPrefix(digits, 3) == digits;
    assert Sorted("123");
    SortedUnique(DigitPattern(text, 3), "123");
  }

  lemma PatternOfTwelvePointThree()
    ensures DigitPattern("12.3", 3) == "123"
  {
    RemoveDotsExamples();
    PatternOneTwoThree("12.3", "123");
  }

  lemma PatternOfTwentyOnePointThree()
    ensures DigitPattern("21.3", 3) == "123"
  {
    RemoveDotsExamples();
    assert multiset("213") == multiset("123");
    PatternOneTwoThree("21.3", "213");
  }

  /** "12.3" and "21.3" at precision 3 both give the pattern "123". */
  lemma PatternExample()
    ensures DigitPattern("12.3", 3) == "123"
    ensures DigitPattern("21.3", 3) == "123"
  {
    PatternOfTwelvePointThree();
    PatternOfTwentyOnePointThree();
  }

  /** One entry of the `Counter`: a pattern and how often it occurs. */
  datatype Entry = Entry(pattern: string, count: nat)

  function Keys(es: seq<Entry>): (ks: seq<string>)
    ensures |ks| == |es|
  {
    seq(|es|, i requires 0 <= i < |es| => es[i].pattern)
  }

  function Counts(es: seq<Entry>): (cs: seq<nat>)
    ensures |cs| == |es|
  {
    seq(|es|, i requires 0 <= i < |es| => es[i].count)
  }

  predicate Distinct(xs: seq<string>) {
    forall i, j :: 0 <= i < j < |xs| ==> xs[i] != xs[j]
  }

  function IndexOf(xs: seq<string>, x: string): (i: nat)
    requires x in xs
    ensures i < |xs| && xs[i] == x
  {
    if xs[0] == x then 0 else 1 + IndexOf(xs[1..], x)
  }

  /** Counting one more occurrence of `p`: its entry is incremented in
      place, or a new entry with count 1 is added after all the others (a
      dictionary keeps its keys in insertion order). */
  function Add(es: seq<Entry>, p: string): (r: seq<Entry>)
  {
    if p in Keys(es) then
      var i := IndexOf(Keys(es), p);
      es[i := Entry(p, es[i].count + 1)]
    else es + [Entry(p, 1)]
  }

  /** `Counter(patterns)` */
  function Tally(ps: seq<string>): (r: seq<Entry>)
  {
    if ps == [] then [] else Add(Tally(ps[..|ps| - 1]), ps[|ps| - 1])
  }

  /** `es` is the counter of `ps`: one entry per distinct pattern, each
      holding the number of occurrences of its pattern, the counts adding up
      to the number of patterns. */
  ghost predicate CounterOf(es: seq<Entry>, ps: seq<string>) {
    && Distinct(Keys(es))
    && (forall x :: x in ps <==> x in Keys(es))
    && (forall i :: 0 <= i < |es| ==> es[i].count == multiset(ps)[es[i].pattern] && es[i].count >= 1)
    && SumInt(Counts(es)) == |ps|
  }

  lemma AddExisting(es: seq<Entry>, ps: seq<string>, p: string)
    requires CounterOf(es, ps) && p in Keys(es)
    ensures CounterOf(Add(es, p), ps + [p])
  {
    var i := IndexOf(Keys(es), p);
    var t := Add(es, p);
    var ps' := ps + [p];
    assert t == es[i := Entry(p, es[i].count + 1)];
    assert Keys(t) == Keys(es);
    assert Counts(t) == Counts(es)[i := es[i].count + 1];
    SumIntUpdate(Counts(es), i, es[i].count + 1);
    assert multiset(ps') == multiset(ps) + multiset{p};
    forall j | 0 <= j < |t| ensures t[j].count == multiset(ps')[t[j].pattern] {
      if j != i {
        assert Keys(es)[j] != Keys(es)[i];
      }
    }
  }

  lemma AddNew(es: seq<Entry>, ps: seq<string>, p: string)
    requires CounterOf(es, ps) && p !in Keys(es)
    ensures CounterOf(Add(es, p), ps + [p])
  {
    var t := Add(es, p);
    var ps' := ps + [p];
    assert t == es + [Entry(p, 1)];
    assert Keys(t) == Keys(es) + [p];
    assert Counts(t) == Counts(es) + [1];
    SumIntAppend(Counts(es), [1]);
    assert multiset(ps') == multiset(ps) + multiset{p};
    forall j | 0 <= j < |es| ensures es[j].pattern != p {
      assert Keys(es)[j] == es[j].pattern;
    }
    assert p !in ps;
  }

  /** `Counter(patterns)` counts the patterns: see `CounterOf`. Entries come
      in order of first occurrence, since new patterns are appended. */
  lemma {:induction false} TallyFacts(ps: seq<string>)
    ensures CounterOf(Tally(ps), ps)
    decreases |ps|
  {
    if ps != [] {
      var init, p := ps[..|ps| - 1], ps[|ps| - 1];
      assert ps == init + [p];
      TallyFacts(init);
      if p in Keys(Tally(init)) {
        AddExisting(Tally(init), init, p);
      } else {
        AddNew(Tally(init), init, p);
      }
    }
  }

  /** A sequence without repeats has as many elements as its set. */
  lemma {:induction false} DistinctCard(xs: seq<string>)
    requires Distinct(xs)
    ensures |set x | x in xs| == |xs|
    decreases |xs|
  {
    if xs != [] {
      var init := xs[..|xs| - 1];
      DistinctCard(init);
      assert xs == init + [xs[|xs| - 1]];
      assert (set x | x in xs) == (set x | x in init) + {xs[|xs| - 1]};
    }
  }

  /** `unique_patterns = len(counts)` is the number of distinct patterns. */
  lemma UniqueIsDistinctPatterns(ps: seq<string>)
    ensures |Tally(ps)| == |set x | x in ps|
    ensures |Tally(ps)| <= |ps|
    ensures ps != [] ==> |Tally(ps)| >= 1
  {
    TallyFacts(ps);
    DistinctCard(Keys(Tally(ps)));
    assert (set x | x in ps) == (set x | x in Keys(Tally(ps)));
    if ps != [] {
      assert ps[0] in Keys(Tally(ps));
    }
  }

  /** `unique_patterns = len(counts)`: the number of distinct patterns. */
  function UniqueCount(ps: seq<string>): (u: nat)
    ensures u == |set x | x in ps|
    ensures u <= |ps|
    ensures ps != [] ==> u >= 1
  {
    UniqueIsDistinctPatterns(ps);
    |Tally(ps)|
  }

  /** `[get_digit_pattern(num, precision) for num in numbers]` */
  function Patterns(numbers: seq<string>, precision: int): (ps: seq<string>)
    ensures |ps| == |numbers|
  {
    seq(|numbers|, i requires 0 <= i < |numbers| => DigitPattern(numbers[i], precision))
  }

  /** `expected = n / unique_patterns if unique_patterns else 1` */
  function Expected(n: nat, unique: nat): (e: real)
    requires unique <= n
    ensures e > 0.0
    ensures unique > 0 ==> e * unique as real == n as real
    ensures unique == 0 ==> e == 1.0
  {
    if unique != 0 then n as real / unique as real else 1.0
  }

  /** `poker_test`'s result: verdict, chi-square statistic and p-value. */
  datatype PokerReport = PokerReport(verdict: Verdict, statistic: real, pValue: PValue)

  /** `poker_test(numbers, alpha, precision)`, for the decimal texts of the
      numbers. */
  function RunPokerTest(numbers: seq<string>, alpha: real, precision: int, cdf: (real, int) -> real): (r: PokerReport)
    ensures r.statistic >= 0.0
    ensures r.pValue.Num? <==> |set x | x in Patterns(numbers, precision)| >= 2
    ensures r.pValue == ChiSquarePValue(cdf, r.statistic, |set x | x in Patterns(numbers, precision)| - 1)
    ensures r.verdict == Accepted <==> Above(r.pValue, alpha)
  {
    var ps := Patterns(numbers, precision);
    var counts := Tally(ps);
    UniqueIsDistinctPatterns(ps);
    var n := |numbers|;
    var unique := |counts|;
    var expected := Expected(n, unique);
    var stat := ChiSquareSum(Counts(counts), expected);
    ChiSquareSumZeroIff(Counts(counts), expected);
    var df := unique - 1;
    var p := ChiSquarePValue(cdf, stat, df);
    PokerReport(AcceptIfAbove(p, alpha), stat, p)
  }

  /** Every entry of a counter holds the expected count exactly when every
      pattern occurs `n / unique_patterns` times. */
  lemma UniformCounter(t: seq<Entry>, ps: seq<string>)
    requires CounterOf(t, ps) && |t| <= |ps|
    ensures (forall i :: 0 <= i < |t| ==> Counts(t)[i] as real == Expected(|ps|, |t|))
        <==> (forall x :: x in ps ==> multiset(ps)[x] as real == |ps| as real / |t| as real)
  {
    var e := Expected(|ps|, |t|);
    if forall i :: 0 <= i < |t| ==> Counts(t)[i] as real == e {
      UniformCountsToPatterns(t, ps);
    }
    if forall x :: x in ps ==> multiset(ps)[x] as real == |ps| as real / |t| as real {
      UniformPatternsToCounts(t, ps);
    }
  }

  lemma UniformCountsToPatterns(t: seq<Entry>, ps: seq<string>)
    requires CounterOf(t, ps) && |t| <= |ps|
    requires forall i :: 0 <= i < |t| ==> Counts(t)[i] as real == Expected(|ps|, |t|)
    ensures forall x :: x in ps ==> multiset(ps)[x] as real == |ps| as real / |t| as real
  {
    forall x | x in ps ensures multiset(ps)[x] as real == |ps| as real / |t| as real {
      assert x in Keys(t);
      var i := IndexOf(Keys(t), x);
      var c := multiset(ps)[x];
      assert Counts(t)[i] == t[i].count == c;
    }
  }

  lemma UniformPatternsToCounts(t: seq<Entry>, ps: seq<string>)
    requires CounterOf(t, ps) && |t| <= |ps|
    requires forall x :: x in ps ==> multiset(ps)[x] as real == |ps| as real / |t| as real
    ensures forall i :: 0 <= i < |t| ==> Counts(t)[i] as real == Expected(|ps|, |t|)
  {
    forall i | 0 <= i < |t| ensures Counts(t)[i] as real == Expected(|ps|, |t|) {
      assert Keys(t)[i] in ps;
      assert Counts(t)[i] == multiset(ps)[t[i].pattern];
    }
  }

  /** The statistic is zero exactly when every distinct pattern occurs
      `n / unique_patterns` times. */
  lemma StatisticZeroIffUniform(numbers: seq<string>, alpha: real, precision: int, cdf: (real, int) -> real)
    ensures var ps := Patterns(numbers, precision);
      RunPokerTest(numbers, alpha, precision, cdf).statistic == 0.0
      <==> forall x :: x in ps ==> multiset(ps)[x] as real == |numbers| as real / UniqueCount(ps) as real
  {
    var ps := Patterns(numbers, precision);
    var t := Tally(ps);
    TallyFacts(ps);
    UniqueIsDistinctPatterns(ps);
    UniformCounter(t, ps);
    var expected := Expected(|ps|, |t|);
    assert RunPokerTest(numbers, alpha, precision, cdf).statistic == ChiSquareSum(Counts(t), expected);
    ChiSquareSumZeroIff(Counts(t), expected);
  }

  /** With every number sharing one pattern, or with no number at all, the
      degrees of freedom fall below one, the p-value is NaN, and the test
      rejects. */
  lemma FewerThanTwoPatternsRejected(numbers: seq<string>, alpha: real, precision: int, cdf: (real, int) -> real)
    requires forall i, j :: 0 <= i < j < |numbers| ==> DigitPattern(numbers[i], precision) == DigitPattern(numbers[j], precision)
    ensures RunPokerTest(numbers, alpha, precision, cdf).verdict == Rejected
  {
    var ps := Patterns(numbers, precision);
    forall i, j | 0 <= i < j < |ps| ensures ps[i] == ps[j] {
      assert ps[i] == DigitPattern(numbers[i], precision);
      assert ps[j] == DigitPattern(numbers[j], precision);
    }
    AtMostOneDistinct(ps);
  }

  lemma AtMostOneDistinct(ps: seq<string>)
    requires forall i, j :: 0 <= i < j < |ps| ==> ps[i] == ps[j]
    ensures |set x | x in ps| < 2
  {
    if ps != [] {
      assert (set x | x in ps) == {ps[0]};
    }
  }

  /** With an empty sample the statistic is 0 and the verdict is
      "Rejected". */
  lemma EmptySample(alpha: real, precision: int, cdf: (real, int) -> real)
    ensures RunPokerTest([], alpha, precision, cdf) == PokerReport(Rejected, 0.0, NaN)
  {
  }
}
