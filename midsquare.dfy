/** The mid-square generator: square the current value, left-pad the
    square's decimal digits with zeros to twice the digit width, take the
    middle `num_digits` characters as the next value, and repeat. */
module MidSquare {
  import opened Statistics

  function Pow10(k: nat): (r: nat)
    ensures r >= 1
  {
    if k == 0 then 1 else 10 * Pow10(k - 1)
  }

  predicate IsDigit(c: char) {
    '0' <= c <= '9'
  }

  predicate AllDigits(s: string) {
    forall i :: 0 <= i < |s| ==> IsDigit(s[i])
  }

  predicate AllZeros(s: string) {
    forall i :: 0 <= i < |s| ==> s[i] == '0'
  }

  function DigitChar(d: nat): (c: char)
    requires d < 10
    ensures IsDigit(c)
    ensures c == '0' <==> d == 0
  {
    ('0' as int + d) as char
  }

  function DigitValue(c: char): (d: nat)
    requires IsDigit(c)
    ensures d < 10
  {
    c as int - '0' as int
  }

  /** `str(n)` of a non-negative integer: its decimal digits, most significant
      first, with no leading zero except for 0 itself. */
  function Str(n: nat): (s: string)
    ensures |s| >= 1 && AllDigits(s)
    ensures |s| == 1 <==> n < 10
    ensures |s| > 1 ==> s[0] != '0'
  {
    if n < 10 then [DigitChar(n)] else Str(n / 10) + [DigitChar(n % 10)]
  }

  /** The value of a string of decimal digits, as `int(s)` reads it
      (leading zeros allowed). */
  function Parse(s: string): (n: nat)
    requires AllDigits(s)
    ensures n < Pow10(|s|)
  {
    if s == [] then 0 else 10 * Parse(s[..|s| - 1]) + DigitValue(s[|s| - 1])
  }

  function Zeros(k: nat): (z: string)
    ensures |z| == k && AllZeros(z)
  {
    seq(k, _ => '0')
  }

  /** `s.zfill(width)` for a string of digits: zeros on the left up to
      `width` characters; a string already that long is unchanged. */
  function ZFill(s: string, width: int): (r: string)
    ensures |r| == if |s| >= width then |s| else width
  {
    if |s| >= width then s else Zeros(width - |s|) + s
  }

  /** Zeros on the left do not change the value `int` reads. */
  lemma {:induction false} ParseLeadingZeros(z: string, s: string)
    requires AllZeros(z) && AllDigits(s)
    ensures AllDigits(z + s) && Parse(z + s) == Parse(s)
    decreases |s|
  {
    if s == [] {
      assert z + s == z;
      ParseZeros(z);
    } else {
      var init := s[..|s| - 1];
      assert (z + s)[..|z + s| - 1] == z + init;
      ParseLeadingZeros(z, init);
    }
  }

  /** What `zfill` adds are zeros, all on the left: the string itself is
      the suffix. */
  lemma ZFillPadsLeft(s: string, width: int)
    ensures var r := ZFill(s, width);
      r[|r| - |s|..] == s && AllZeros(r[..|r| - |s|])
  {
  }

  /** `int(s.zfill(width)) == int(s)`: padding keeps the value. */
  lemma ZFillKeepsValue(s: string, width: int)
    requires AllDigits(s)
    ensures AllDigits(ZFill(s, width)) && Parse(ZFill(s, width)) == Parse(s)
  {
    var r := ZFill(s, width);
    ZFillPadsLeft(s, width);
    assert r == r[..|r| - |s|] + s;
    ParseLeadingZeros(r[..|r| - |s|], s);
  }

  /** `str(seed ** 2).zfill(num_digits * 2)` */
  function PaddedSquare(seed: int, numDigits: int): string
  {
    ZFill(Str(seed * seed), numDigits * 2)
  }

  /** `(len(squared_str) - num_digits) // 2` */
  function MidStart(squaredStr: string, numDigits: int): int
  {
    (|squaredStr| - numDigits) / 2
  }

  /** The padded square is at least `2 * num_digits` long, and the window
      `[mid_start, mid_start + num_digits)` lies inside it. */
  lemma MidWindowInBounds(seed: int, numDigits: nat)
    requires numDigits >= 1
    ensures |PaddedSquare(seed, numDigits)| >= 2 * numDigits
    ensures 0 <= MidStart(PaddedSquare(seed, numDigits), numDigits)
    ensures MidStart(PaddedSquare(seed, numDigits), numDigits) + numDigits
            <= |PaddedSquare(seed, numDigits)|
  {
  }

  /** `squared_str[mid_start:mid_end]`: the `num_digits` middle characters
      of a string at least `2 * num_digits` long. */
  function MiddleDigits(squaredStr: string, numDigits: nat): (m: string)
    requires 1 <= numDigits && 2 * numDigits <= |squaredStr|
    ensures |m| == numDigits
  {
    var midStart := MidStart(squaredStr, numDigits);
    squaredStr[midStart..midStart + numDigits]
  }

  /** One mid-square step: the next seed after `seed`. */
  function Next(seed: int, numDigits: nat): (r: nat)
    requires numDigits >= 1
    ensures r < Pow10(numDigits)
  {
    MidWindowInBounds(seed, numDigits);
    Parse(MiddleDigits(PaddedSquare(seed, numDigits), numDigits))
  }

  /** The first `quantity` outputs of the generator started at `seed`: the
      first is the step from `seed`, each later one the step from its
      predecessor. */
  function Outputs(seed: int, numDigits: nat, quantity: nat): (r: seq<nat>)
    requires numDigits >= 1
    ensures |r| == quantity
    ensures forall j :: 0 <= j < quantity ==> r[j] < Pow10(numDigits)
    decreases quantity
  {
    if quantity == 0 then []
    else
      var prev := Outputs(seed, numDigits, quantity - 1);
      prev + [Next(if quantity == 1 then seed else prev[quantity - 2], numDigits)]
  }

  lemma OutputsSnoc(seed: int, numDigits: nat, quantity: nat)
    requires numDigits >= 1
    ensures Outputs(seed, numDigits, quantity + 1)
         == Outputs(seed, numDigits, quantity)
            + [Next(if quantity == 0 then seed else Outputs(seed, numDigits, quantity)[quantity - 1], numDigits)]
  {
  }

  /** What `generate_random_numbers` returns, or the exception it raises:
      a digit width below one makes the middle slice empty, and `int('')`
      raises ValueError on the first step. */
  method GenerateRandomNumbers(seed: int, numDigits: int, quantity: int) returns (r: Result<seq<nat>>)
    ensures quantity <= 0 ==> r == Ok([])
    ensures quantity > 0 && numDigits <= 0 ==> r == Raises(ValueError)
    ensures quantity > 0 && numDigits >= 1 ==> r == Ok(Outputs(seed, numDigits, quantity))
  {
    var randomNumbers: seq<nat> := [];
    var current := seed;
    var count := if quantity > 0 then quantity else 0;  // range(quantity) is empty for quantity <= 0
    for i := 0 to count
      invariant i > 0 ==> numDigits >= 1
      invariant numDigits >= 1 ==> randomNumbers == Outputs(seed, numDigits, i)
      invariant |randomNumbers| == i
      invariant current == if i == 0 then seed else randomNumbers[i - 1]
    {
      if numDigits <= 0 {
        // the middle slice [mid_start:mid_start + num_digits] is empty
        return Raises(ValueError);
      }
      var next := Next(current, numDigits);
      OutputsSnoc(seed, numDigits, i);
      randomNumbers := randomNumbers + [next];
      current := next;
    }
    return Ok(randomNumbers);
  }

  /** `int(str(n)) == n`: reading back the decimal digits of a number gives
      the number. */
  lemma {:induction false} ParseStr(n: nat)
    ensures Parse(Str(n)) == n
  {
    if n >= 10 {
      var s := Str(n);
      assert s[..|s| - 1] == Str(n / 10);
      ParseStr(n / 10);
    }
  }

  lemma {:induction false} ParseZeros(s: string)
    requires AllZeros(s)
    ensures AllDigits(s) && Parse(s) == 0
  {
    if s != [] {
      ParseZeros(s[..|s| - 1]);
    }
  }

  /** 0 is a fixed point of the step: the square of 0 pads to all zeros. */
  lemma ZeroIsFixedPoint(numDigits: nat)
    requires numDigits >= 1
    ensures Next(0, numDigits) == 0
  {
    MidWindowInBounds(0, numDigits);
    var squaredStr := PaddedSquare(0, numDigits);
    assert Str(0) == "0";
    assert squaredStr == Zeros(2 * numDigits - 1) + "0";
    assert AllZeros(squaredStr);
    ParseZeros(MiddleDigits(squaredStr, numDigits));
  }

  /** A shorter run of the generator is a prefix of a longer one. */
  lemma {:induction false} OutputsPrefix(seed: int, numDigits: nat, quantity: nat, m: nat)
    requires numDigits >= 1 && m <= quantity
    ensures Outputs(seed, numDigits, quantity)[..m] == Outputs(seed, numDigits, m)
    decreases quantity
  {
    if m < quantity {
      OutputsPrefix(seed, numDigits, quantity - 1, m);
      assert Outputs(seed, numDigits, quantity)[..quantity - 1]
          == Outputs(seed, numDigits, quantity - 1);
    }
  }

  /** The first output is the step from the seed, and every later output is
      the step from the output before it. */
  lemma OutputsRecurrence(seed: int, numDigits: nat, quantity: nat)
    requires numDigits >= 1
    ensures quantity >= 1 ==> Outputs(seed, numDigits, quantity)[0] == Next(seed, numDigits)
    ensures forall j :: 0 <= j < quantity - 1 ==>
      Outputs(seed, numDigits, quantity)[j + 1] == Next(Outputs(seed, numDigits, quantity)[j], numDigits)
  {
    var r := Outputs(seed, numDigits, quantity);
    if quantity >= 1 {
      OutputsPrefix(seed, numDigits, quantity, 1);
      assert r[0] == r[..1][0];
    }
    forall j | 0 <= j < quantity - 1
      ensures r[j + 1] == Next(r[j], numDigits)
    {
      OutputsPrefix(seed, numDigits, quantity, j + 2);
      var p := Outputs(seed, numDigits, j + 2);
      assert r[j + 1] == p[j + 1] && r[j] == p[j];
    }
  }

  /** Once the generator outputs 0 it outputs 0 for ever after. */
  lemma {:induction false} ZeroIsAbsorbing(seed: int, numDigits: nat, quantity: nat, j: nat, k: nat)
    requires numDigits >= 1 && j <= k < quantity
    requires Outputs(seed, numDigits, quantity)[j] == 0
    ensures Outputs(seed, numDigits, quantity)[k] == 0
    decreases k - j
  {
    if j < k {
      OutputsRecurrence(seed, numDigits, quantity);
      ZeroIsFixedPoint(numDigits);
      ZeroIsAbsorbing(seed, numDigits, quantity, j + 1, k);
    }
  }

  lemma ParseFourDigits(s: string)
    requires |s| == 4 && AllDigits(s)
    ensures Parse(s) == 1000 * DigitValue(s[0]) + 100 * DigitValue(s[1])
                        + 10 * DigitValue(s[2]) + DigitValue(s[3])
  {
    var s3, s2, s1 := s[..3], s[..2], s[..1];
    assert s3[..2] == s2 && s2[..1] == s1 && s1[..0] == [];
    assert Parse(s1) == DigitValue(s[0]);
    assert Parse(s2) == 10 * DigitValue(s[0]) + DigitValue(s[1]);
    assert Parse(s3) == 100 * DigitValue(s[0]) + 10 * DigitValue(s[1]) + DigitValue(s[2]);
  }

  lemma NextOfPadded(seed: int, numDigits: nat, padded: string)
    requires numDigits >= 1 && PaddedSquare(seed, numDigits) == padded
    ensures 2 * numDigits <= |padded|
    ensures AllDigits(MiddleDigits(padded, numDigits))
    ensures Next(seed, numDigits) == Parse(MiddleDigits(padded, numDigits))
  {
    MidWindowInBounds(seed, numDigits);
  }

  /** The middle four characters of an eight-character string. */
  lemma MiddleOfEight(s: string)
    requires |s| == 8
    ensures MiddleDigits(s, 4) == [s[2], s[3], s[4], s[5]]
  {
    assert MidStart(s, 4) == 2;
  }

  lemma PaddedSquareOf(seed: int, numDigits: int, square: nat, digits: string)
    requires seed * seed == square && Str(square) == digits
    ensures PaddedSquare(seed, numDigits) == ZFill(digits, numDigits * 2)
  {
  }

  lemma StrOf1522756()
    ensures Str(1522756) == "1522756"
  {
    assert Str(15) == "15";
    assert Str(152) == "152";
    assert Str(1522) == "1522";
    assert Str(15227) == "15227";
    assert Str(152275) == "152275";
    assert Str(1522756) == "1522756";
  }

  /** 1234^2 = 1522756 pads to "01522756", whose middle four digits are 5227. */
  lemma StepFrom1234()
    ensures Next(1234, 4) == 5227
  {
    StrOf1522756();
    PaddedSquareOf(1234, 4, 1522756, "1522756");
    assert ZFill("1522756", 8) == "01522756";
    NextOfPadded(1234, 4, "01522756");
    MiddleOfEight("01522756");
    assert MiddleDigits("01522756", 4) == "5227";
    ParseFourDigits("5227");
  }

  lemma StrOf27321529()
    ensures Str(27321529) == "27321529"
  {
    assert Str(27) == "27";
    assert Str(273) == "273";
    assert Str(2732) == "2732";
    assert Str(27321) == "27321";
    assert Str(273215) == "273215";
    assert Str(2732152) == "2732152";
    assert Str(27321529) == "27321529";
  }

  /** 5227^2 = 27321529, whose middle four digits are 3215. */
  lemma StepFrom5227()
    ensures Next(5227, 4) == 3215
  {
    StrOf27321529();
    PaddedSquareOf(5227, 4, 27321529, "27321529");
    assert ZFill("27321529", 8) == "27321529";
    NextOfPadded(5227, 4, "27321529");
    MiddleOfEight("27321529");
    assert MiddleDigits("27321529", 4) == "3215";
    ParseFourDigits("3215");
  }

  lemma StrOf10336225()
    ensures Str(10336225) == "10336225"
  {
    assert Str(10) == "10";
    assert Str(103) == "103";
    assert Str(1033) == "1033";
    assert Str(10336) == "10336";
    assert Str(103362) == "103362";
    assert Str(1033622) == "1033622";
    assert Str(10336225) == "10336225";
  }

  /** 3215^2 = 10336225, whose middle four digits are 3362. */
  lemma StepFrom3215()
    ensures Next(3215, 4) == 3362
  {
    StrOf10336225();
    PaddedSquareOf(3215, 4, 10336225, "10336225");
    assert ZFill("10336225", 8) == "10336225";
    NextOfPadded(3215, 4, "10336225");
    MiddleOfEight("10336225");
    assert MiddleDigits("10336225", 4) == "3362";
    ParseFourDigits("3362");
  }

  /** Seed 1234 with four digits yields 5227, 3215, 3362, on every run. */
  lemma Seed1234Example()
    ensures Outputs(1234, 4, 3) == [5227, 3215, 3362]
  {
    StepFrom1234();
    StepFrom5227();
    StepFrom3215();
    OutputsRecurrence(1234, 4, 3);
  }
}
