/**
 * The grade-school long division that the tutorial's grid displays: the dividend
 * is read digit by digit from the most significant end, and each digit produces one
 * row (bring down, quotient digit, product, remainder).
 */
module LongDivision {

  /** One row of the written division. */
  datatype Step = Step(position: nat, bringDown: nat, digit: nat, qDigit: nat, product: nat, remainder: nat)

  /** The decimal digits of `n`, most significant first, as the decimal numeral of `n` spells them (so 0 has one digit). */
  function Digits(n: nat): (ds: seq<nat>)
    ensures |ds| >= 1
    ensures forall i :: 0 <= i < |ds| ==> ds[i] < 10
    ensures n >= 10 ==> |ds| >= 2
  {
    if n < 10 then [n] else Digits(n / 10) + [n % 10]
  }

  /** The number of characters of the decimal numeral of `n`. */
  function NumDigits(n: nat): nat {
    |Digits(n)|
  }

  /** The value of a digit sequence read as a decimal numeral. */
  function DecimalValue(ds: seq<nat>): nat {
    if ds == [] then 0 else DecimalValue(ds[..|ds| - 1]) * 10 + ds[|ds| - 1]
  }

  lemma {:induction false} DigitsValue(n: nat)
    ensures DecimalValue(Digits(n)) == n
  {
    if n >= 10 {
      var ds := Digits(n);
      assert ds[..|ds| - 1] == Digits(n / 10);
      DigitsValue(n / 10);
    }
  }

  /** Numerals of one, two and three digits are exactly the numbers below 10, 100 and 1000. */
  lemma NumDigitsRange(n: nat)
    ensures NumDigits(n) == 1 <==> n < 10
    ensures NumDigits(n) == 2 <==> 10 <= n < 100
    ensures NumDigits(n) == 3 <==> 100 <= n < 1000
    ensures NumDigits(n) >= 4 <==> n >= 1000
  {
    if n >= 10 {
      NumDigitsRange(n / 10);
    }
  }

  /** The remainder carried into the next row: that of the last row so far, or 0 before the first. */
  function CarryIn(steps: seq<Step>): nat {
    if steps == [] then 0 else steps[|steps| - 1].remainder
  }

  /** The quotient digits of the rows, in order. */
  function QuotientDigits(steps: seq<Step>): (qs: seq<nat>)
    ensures |qs| == |steps|
  {
    seq(|steps|, i requires 0 <= i < |steps| => steps[i].qDigit)
  }

  /** The row for the digit at `position`, given the remainder carried in from the row before. */
  function NextStep(position: nat, carry: nat, digit: nat, divisor: nat): Step
    requires divisor > 0
  {
    var current := carry * 10 + digit;
    var q := current / divisor;
    Step(position, current, digit, q, q * divisor, current - q * divisor)
  }

  lemma ProductBelow(current: nat, divisor: nat)
    requires divisor > 0
    ensures (current / divisor) * divisor <= current
  {}

  /** A row's remainder is the Euclidean remainder of what it brings down, so it is below the divisor. */
  lemma NextStepFacts(position: nat, carry: nat, digit: nat, v: nat)
    requires v > 0
    ensures NextStep(position, carry, digit, v).bringDown == carry * 10 + digit
    ensures NextStep(position, carry, digit, v).remainder == (carry * 10 + digit) % v < v
  {
    var c := carry * 10 + digit;
    assert c == (c / v) * v + c % v;
  }

  /** The rows produced for the digit sequence `ds`, one per digit. */
  function StepsOver(ds: seq<nat>, divisor: nat): (steps: seq<Step>)
    requires divisor > 0
    ensures |steps| == |ds|
  {
    if ds == [] then []
    else
      var prev := StepsOver(ds[..|ds| - 1], divisor);
      prev + [NextStep(|ds| - 1, CarryIn(prev), ds[|ds| - 1], divisor)]
  }

  /** The rows of `dividend ÷ divisor`; none when either number is 0. */
  function Steps(dividend: nat, divisor: nat): seq<Step> {
    if divisor == 0 || dividend == 0 then [] else StepsOver(Digits(dividend), divisor)
  }

  /** The body of the loop below: the row for `digit`, from the remainder carried in. */
  method DivideRow(idx: nat, remainder: nat, digit: nat, divisor: nat) returns (step: Step)
    requires divisor > 0
    ensures step == NextStep(idx, remainder, digit, divisor)
  {
    var current := remainder * 10 + digit;
    var qDigit := current / divisor;
    var product := qDigit * divisor;
    ProductBelow(current, divisor);
    var nextRemainder := current - product;
    step := Step(idx, current, digit, qDigit, product, nextRemainder);
  }

  /** Runs the division digit by digit, carrying the remainder from row to row. */
  method ComputeLongDivisionSteps(dividend: nat, divisor: nat) returns (steps: seq<Step>)
    ensures steps == Steps(dividend, divisor)
  {
    if divisor == 0 || dividend == 0 {
      return [];
    }
    var digits := Digits(dividend);
    var remainder := 0;
    steps := [];
    var idx := 0;
    while idx < |digits|
      invariant 0 <= idx <= |digits|
      invariant steps == StepsOver(digits[..idx], divisor)
      invariant remainder == CarryIn(steps)
    {
      var digit := digits[idx];
      var step := DivideRow(idx, remainder, digit, divisor);
      assert digits[..idx + 1] == digits[..idx] + [digit];
      StepsOverSnoc(digits[..idx], digit, divisor);
      steps := steps + [step];
      remainder := step.remainder;
      idx := idx + 1;
    }
    assert digits[..idx] == digits;
  }

  /** Multiplying by a positive number keeps the order of the other factors. */
  lemma MulMonotone(v: int, a: int, b: int)
    requires v > 0
    ensures a <= b ==> v * a <= v * b
    ensures a < b ==> v * a < v * b
  {
    if a < b {
      assert v * b - v * a == v * (b - a);
    }
  }

  /** Euclidean division is determined by its equation: `x == v * a + b` with `0 <= b < v` fixes quotient and remainder. */
  lemma DivModUnique(x: int, v: int, a: int, b: int)
    requires v > 0 && 0 <= b < v && x == v * a + b
    ensures x / v == a && x % v == b
  {
    var q, r := x / v, x % v;
    assert x == v * q + r;
    MulMonotone(v, a, q + 1);
    MulMonotone(v, q, a + 1);
    assert v * (q + 1) == v * q + v;
    assert v * (a + 1) == v * a + v;
  }

  /** A number below `v * k` has a quotient by `v` below `k`. */
  lemma DivBelow(x: nat, v: nat, k: nat)
    requires v > 0 && x < v * k
    ensures x / v < k
  {
    var q := x / v;
    assert v * q <= x;
    MulMonotone(v, k, q);
  }

  /** One more digit appended to a numeral: how its quotient and remainder follow from the shorter numeral's. */
  lemma ExtendByDigit(n: nat, digit: nat, v: nat)
    requires v > 0
    ensures (n * 10 + digit) / v == (n / v) * 10 + ((n % v) * 10 + digit) / v
    ensures (n * 10 + digit) % v == ((n % v) * 10 + digit) % v
  {
    var q, r := n / v, n % v;
    var current := r * 10 + digit;
    var q2, r2 := current / v, current % v;
    assert n * 10 + digit == v * (q * 10 + q2) + r2 by {
      assert n == v * q + r;
      assert current == v * q2 + r2;
    }
    DivModUnique(n * 10 + digit, v, q * 10 + q2, r2);
  }

  /** A row's quotient is a single digit when the carried remainder is below the divisor. */
  lemma QuotientDigitBound(carry: nat, digit: nat, v: nat)
    requires v > 0 && carry < v && digit < 10
    ensures (carry * 10 + digit) / v < 10
  {
    MulMonotone(10, carry, v - 1);
    assert v * 10 == 10 * (v - 1) + 10;
    DivBelow(carry * 10 + digit, v, 10);
  }

  /** Appending a digit appends exactly the row computed from the previous carry. */
  lemma StepsOverSnoc(ds: seq<nat>, digit: nat, v: nat)
    requires v > 0
    ensures StepsOver(ds + [digit], v) == StepsOver(ds, v) + [NextStep(|ds|, CarryIn(StepsOver(ds, v)), digit, v)]
  {
    assert (ds + [digit])[..|ds|] == ds;
  }

  /** The rows' remainders stay below the divisor, and the last one is the numeral's remainder. */
  lemma {:induction false} StepsOverRemainder(ds: seq<nat>, v: nat)
    requires v > 0
    ensures CarryIn(StepsOver(ds, v)) == DecimalValue(ds) % v
    ensures forall i :: 0 <= i < |ds| ==> StepsOver(ds, v)[i].remainder < v
  {
    if ds != [] {
      var init, digit := ds[..|ds| - 1], ds[|ds| - 1];
      assert ds == init + [digit];
      StepsOverRemainder(init, v);
      StepsOverSnoc(init, digit, v);
      var prev := StepsOver(init, v);
      var last := NextStep(|init|, CarryIn(prev), digit, v);
      NextStepFacts(|init|, CarryIn(prev), digit, v);
      ExtendByDigit(DecimalValue(init), digit, v);
      assert DecimalValue(ds) == DecimalValue(init) * 10 + digit;
      forall i | 0 <= i < |ds| ensures StepsOver(ds, v)[i].remainder < v {
        if i < |init| {
          assert StepsOver(ds, v)[i] == prev[i];
        }
      }
    }
  }

  /** With decimal digits, every row's quotient digit is below ten. */
  lemma {:induction false} StepsOverDigitBound(ds: seq<nat>, v: nat)
    requires v > 0
    requires forall i :: 0 <= i < |ds| ==> ds[i] < 10
    ensures forall i :: 0 <= i < |ds| ==> StepsOver(ds, v)[i].qDigit < 10
  {
    if ds != [] {
      var init, digit := ds[..|ds| - 1], ds[|ds| - 1];
      assert ds == init + [digit];
      StepsOverDigitBound(init, v);
      StepsOverRemainder(init, v);
      StepsOverSnoc(init, digit, v);
      var prev := StepsOver(init, v);
      assert CarryIn(prev) < v;
      QuotientDigitBound(CarryIn(prev), digit, v);
    }
  }

  /** The quotient digits of the rows, read as a decimal numeral, are the numeral's quotient. */
  lemma {:induction false} StepsOverQuotient(ds: seq<nat>, v: nat)
    requires v > 0
    ensures DecimalValue(QuotientDigits(StepsOver(ds, v))) == DecimalValue(ds) / v
  {
    if ds != [] {
      var init, digit := ds[..|ds| - 1], ds[|ds| - 1];
      assert ds == init + [digit];
      StepsOverQuotient(init, v);
      StepsOverRemainder(init, v);
      StepsOverSnoc(init, digit, v);
      var prev := StepsOver(init, v);
      var step := NextStep(|init|, CarryIn(prev), digit, v);
      QuotientDigitsSnoc(prev, step);
      DecimalValueSnoc(QuotientDigits(prev), step.qDigit);
      DecimalValueSnoc(init, digit);
      ExtendByDigit(DecimalValue(init), digit, v);
    }
  }

  /** One more row adds its quotient digit at the end. */
  lemma QuotientDigitsSnoc(steps: seq<Step>, s: Step)
    ensures QuotientDigits(steps + [s]) == QuotientDigits(steps) + [s.qDigit]
  {
  }

  /** One more digit at the end multiplies the value by ten and adds the digit. */
  lemma DecimalValueSnoc(ds: seq<nat>, d: nat)
    ensures DecimalValue(ds + [d]) == DecimalValue(ds) * 10 + d
  {
    assert (ds + [d])[..|ds|] == ds;
  }

  /**
   * Row `s` is the row at `position` for `digit` after a carried remainder `carry`: it brings
   * down ten times the carry plus the digit, its quotient digit is that number divided by
   * the divisor (at most 9), its product is quotient digit times divisor and its remainder
   * (below the divisor) is what is left.
   */
  predicate IsRow(s: Step, position: nat, carry: nat, digit: nat, divisor: nat)
    requires divisor > 0
  {
    && s.position == position
    && s.digit == digit
    && s.bringDown == carry * 10 + digit
    && s.qDigit == s.bringDown / divisor && s.qDigit <= 9
    && s.product == s.qDigit * divisor
    && s.remainder == s.bringDown - s.product && s.remainder < divisor
  }

  /** Row `i` over decimal digits is the row for digit `i` after the remainder of the rows before it. */
  lemma StepsOverRow(ds: seq<nat>, v: nat, i: nat)
    requires v > 0 && i < |ds|
    requires forall k :: 0 <= k < |ds| ==> ds[k] < 10
    ensures IsRow(StepsOver(ds, v)[i], i, CarryIn(StepsOver(ds, v)[..i]), ds[i], v)
  {
    var init := ds[..i];
    StepsOverPrefix(ds, v, i + 1);
    assert ds[..i + 1] == init + [ds[i]];
    StepsOverSnoc(init, ds[i], v);
    var carry := CarryIn(StepsOver(init, v));
    StepsOverRemainder(init, v);
    StepsOverPrefix(ds, v, i);
    assert StepsOver(ds, v)[..i] == StepsOver(ds, v)[..i + 1][..i];
    NextStepFacts(i, carry, ds[i], v);
    QuotientDigitBound(carry, ds[i], v);
  }

  /** For a positive dividend and divisor there is one row per decimal digit, each built from the remainder before it. */
  lemma StepsShape(dividend: nat, divisor: nat)
    requires dividend > 0 && divisor > 0
    ensures |Steps(dividend, divisor)| == NumDigits(dividend)
    ensures forall i :: 0 <= i < |Steps(dividend, divisor)| ==>
      IsRow(Steps(dividend, divisor)[i], i, CarryIn(Steps(dividend, divisor)[..i]), Digits(dividend)[i], divisor)
  {
    var ds := Digits(dividend);
    forall i | 0 <= i < |ds|
      ensures IsRow(StepsOver(ds, divisor)[i], i, CarryIn(StepsOver(ds, divisor)[..i]), ds[i], divisor)
    {
      StepsOverRow(ds, divisor, i);
    }
  }

  /** The rows over a prefix of the digits are the prefix of the rows. */
  lemma {:induction false} StepsOverPrefix(ds: seq<nat>, v: nat, k: nat)
    requires v > 0 && k <= |ds|
    ensures StepsOver(ds[..k], v) == StepsOver(ds, v)[..k]
  {
    if k < |ds| {
      var init := ds[..|ds| - 1];
      assert ds[..k] == init[..k];
      StepsOverPrefix(init, v, k);
    } else {
      assert ds[..k] == ds;
    }
  }

  /**
   * The division the grid shows is correct: the last row's remainder is `dividend % divisor`
   * and the quotient digits, read as a decimal numeral, are `dividend / divisor`.
   */
  lemma StepsCorrect(dividend: nat, divisor: nat)
    requires divisor > 0
    ensures CarryIn(Steps(dividend, divisor)) == dividend % divisor
    ensures DecimalValue(QuotientDigits(Steps(dividend, divisor))) == dividend / divisor
  {
    DigitsValue(dividend);
    StepsOverRemainder(Digits(dividend), divisor);
    StepsOverQuotient(Digits(dividend), divisor);
  }

  /** The digits of 132 are 1, 3 and 2. */
  lemma Digits132()
    ensures Digits(132) == [1, 3, 2]
  {
    assert Digits(13) == Digits(1) + [3];
    assert Digits(132) == Digits(13) + [2];
  }

  /** One more digit adds one row, computed from the remainder of the rows so far. */
  lemma StepsOverNext(ds: seq<nat>, digit: nat, v: nat, prev: seq<Step>, s: Step)
    requires v > 0 && StepsOver(ds, v) == prev && NextStep(|ds|, CarryIn(prev), digit, v) == s
    ensures StepsOver(ds + [digit], v) == prev + [s]
  {
    StepsOverSnoc(ds, digit, v);
  }

  /** A three-digit numeral has the three rows computed one after the other. */
  lemma ThreeRows(ds: seq<nat>, v: nat, s1: Step, s2: Step, s3: Step)
    requires v > 0 && |ds| == 3
    requires NextStep(0, 0, ds[0], v) == s1 && NextStep(1, s1.remainder, ds[1], v) == s2
    requires NextStep(2, s2.remainder, ds[2], v) == s3
    ensures StepsOver(ds, v) == [s1, s2, s3]
  {
    assert [] + [ds[0]] == ds[..1] && ds[..1] + [ds[1]] == ds[..2] && ds[..2] + [ds[2]] == ds;
    StepsOverNext([], ds[0], v, [], s1);
    StepsOverNext(ds[..1], ds[1], v, [s1], s2);
    StepsOverNext(ds[..2], ds[2], v, [s1, s2], s3);
  }

  /** The worked example 132 ÷ 3: rows 1/0/0/1, 13/4/12/1 and 12/4/12/0, so quotient 44 and remainder 0. */
  lemma Example132By3(dividend: nat, divisor: nat)
    requires dividend == 132 && divisor == 3
    ensures Steps(dividend, divisor) == [Step(0, 1, 1, 0, 0, 1), Step(1, 13, 3, 4, 12, 1), Step(2, 12, 2, 4, 12, 0)]
  {
    Digits132();
    assert NextStep(0, 0, 1, 3) == Step(0, 1, 1, 0, 0, 1);
    assert NextStep(1, 1, 3, 3) == Step(1, 13, 3, 4, 12, 1);
    assert NextStep(2, 1, 2, 3) == Step(2, 12, 2, 4, 12, 0);
    ThreeRows(Digits(dividend), divisor, Step(0, 1, 1, 0, 0, 1), Step(1, 13, 3, 4, 12, 1), Step(2, 12, 2, 4, 12, 0));
  }
}
