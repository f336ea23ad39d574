/**
 * The problem on the board and the progress checks: the quotient and remainder shown,
 * whether the blocks are shared out correctly, whether each place value is done, and
 * how many rows of the long division are revealed.
 */
module Share {
  import opened Wrappers
  import opened Blocks
  import opened LongDivision

  /** The equation is usable once both fields parse and the divisor is positive. */
  predicate HasEquation(dividend: Option<nat>, divisor: Option<int>) {
    dividend.Some? && divisor.Some? && divisor.value > 0
  }

  /** The problem worked on: the equation typed in, or 0 ÷ 1 while there is none. */
  function CurrentProblem(dividend: Option<nat>, divisor: Option<int>): (p: (nat, nat))
    ensures p.1 > 0
    ensures HasEquation(dividend, divisor) ==> p == (dividend.value, divisor.value as nat)
    ensures !HasEquation(dividend, divisor) ==> p == (0, 1)
  {
    if HasEquation(dividend, divisor) then (dividend.value, divisor.value as nat) else (0, 1)
  }

  /** The quotient shown: the floor of the division, or 0 for a zero divisor. */
  function Quotient(dividend: nat, divisor: nat): nat {
    if divisor == 0 then 0 else dividend / divisor
  }

  /** The remainder shown: what is left of the dividend after quotient times divisor. */
  function Remainder(dividend: nat, divisor: nat): int {
    dividend - Quotient(dividend, divisor) * divisor
  }

  /** The quotient and remainder shown are those of Euclidean division. */
  lemma QuotientRemainderFacts(dividend: nat, divisor: nat)
    requires divisor > 0
    ensures Quotient(dividend, divisor) * divisor + Remainder(dividend, divisor) == dividend
    ensures 0 <= Remainder(dividend, divisor) < divisor
    ensures Quotient(dividend, divisor) == dividend / divisor && Remainder(dividend, divisor) == dividend % divisor
  {
    var q, r := dividend / divisor, dividend % divisor;
    assert dividend == divisor * q + r;
    assert q * divisor == divisor * q;
  }

  /** The quotient and remainder shown agree with the quotient digits and the last remainder of the long division. */
  lemma QuotientMatchesSteps(dividend: nat, divisor: nat)
    requires dividend > 0 && divisor > 0
    ensures CarryIn(Steps(dividend, divisor)) == Remainder(dividend, divisor)
    ensures DecimalValue(QuotientDigits(Steps(dividend, divisor))) == Quotient(dividend, divisor)
  {
    QuotientRemainderFacts(dividend, divisor);
    StepsCorrect(dividend, divisor);
  }

  /** The value lying in the source. */
  function SourceTotal(bs: seq<Block>): nat {
    ContainerValue(bs, Source)
  }

  /** Every plate below `divisor` holds the value `p`. */
  predicate PlatesHold(bs: seq<Block>, divisor: nat, p: nat) {
    forall i :: 0 <= i < divisor ==> ContainerValue(bs, Plate(i)) == p
  }

  /** Every plate holds the quotient, there is a plate, and the source holds the remainder, which is below the divisor. */
  predicate EverySameAndCorrect(bs: seq<Block>, dividend: nat, divisor: nat): (solved: bool)
    ensures solved ==> 0 <= SourceTotal(bs) < divisor
    ensures solved ==> forall i :: 0 <= i < divisor ==> ContainerValue(bs, Plate(i)) * divisor + SourceTotal(bs) == dividend
  {
    PlatesHold(bs, divisor, Quotient(dividend, divisor)) && divisor > 0
    && SourceTotal(bs) == Remainder(dividend, divisor) && SourceTotal(bs) < divisor
  }

  /** A board that reads as solved still holds exactly the dividend. */
  lemma SolvedHoldsDividend(bs: seq<Block>, dividend: nat, divisor: nat)
    requires WellPlaced(bs, divisor) && EverySameAndCorrect(bs, dividend, divisor)
    ensures ValueOf(bs) == dividend
  {
    ValuePartition(bs, divisor);
    PlatesValueUniform(bs, divisor, Quotient(dividend, divisor));
    QuotientRemainderFacts(dividend, divisor);
  }

  /**
   * A board holding the dividend whose plates hold equal values and whose source holds
   * less than the divisor reads as solved: the share is forced to be the quotient.
   */
  lemma EqualSharesSolve(bs: seq<Block>, dividend: nat, divisor: nat, p: nat)
    requires divisor > 0 && WellPlaced(bs, divisor) && ValueOf(bs) == dividend
    requires PlatesHold(bs, divisor, p) && SourceTotal(bs) < divisor
    ensures EverySameAndCorrect(bs, dividend, divisor)
  {
    ValuePartition(bs, divisor);
    PlatesValueUniform(bs, divisor, p);
    assert dividend == divisor * p + SourceTotal(bs);
    DivModUnique(dividend, divisor, p, SourceTotal(bs));
    QuotientRemainderFacts(dividend, divisor);
  }

  /** The number of blocks of type `kind` on plates 0 to k - 1. */
  function PlatesCount(bs: seq<Block>, kind: BlockType, k: nat): nat {
    if k == 0 then 0 else PlatesCount(bs, kind, k - 1) + CountIn(bs, kind, Plate(k - 1))
  }

  lemma SingleCount(b: Block, kind: BlockType, c: Container)
    ensures CountIn([b], kind, c) == if b.container == c && b.kind == kind then 1 else 0
  {
    var one := [b];
    assert one[..0] == [];
    assert Count(one, kind) == if b.kind == kind then 1 else 0;
    if b.container == c {
      assert InContainer(one, c) == InContainer([], c) + one;
    } else {
      assert InContainer(one, c) == InContainer([], c) + [];
    }
  }

  lemma {:induction false} PlatesCountSnoc(bs: seq<Block>, b: Block, kind: BlockType, k: nat)
    ensures PlatesCount(bs + [b], kind, k) == PlatesCount(bs, kind, k) + (if b.kind == kind && b.container.Plate? && b.container.index < k then 1 else 0)
  {
    if k > 0 {
      var c := Plate(k - 1);
      PlatesCountSnoc(bs, b, kind, k - 1);
      InContainerAppend(bs, [b], c);
      CountAppend(InContainer(bs, c), InContainer([b], c), kind);
      assert CountIn(bs + [b], kind, c) == CountIn(bs, kind, c) + CountIn([b], kind, c);
      SingleCount(b, kind, c);
    }
  }

  /** When every block lies in the source or on a plate, the blocks of one type split between them. */
  lemma {:induction false} CountPartition(bs: seq<Block>, kind: BlockType, divisor: nat)
    requires WellPlaced(bs, divisor)
    ensures Count(bs, kind) == CountIn(bs, kind, Source) + PlatesCount(bs, kind, divisor)
  {
    if bs != [] {
      var init, b := bs[..|bs| - 1], bs[|bs| - 1];
      assert bs == init + [b];
      CountPartition(init, kind, divisor);
      PlatesCountSnoc(init, b, kind, divisor);
      ContainerAppend(init, [b], Source);
      SingleCount(b, kind, Source);
      assert Count(bs, kind) == Count(init, kind) + (if b.kind == kind then 1 else 0);
      assert Droppable(b.container, divisor);
    } else {
      PlatesCountUniform(bs, kind, divisor, 0);
    }
  }

  /** When every plate below k holds p blocks of the type, together they hold k * p. */
  lemma {:induction false} PlatesCountUniform(bs: seq<Block>, kind: BlockType, k: nat, p: nat)
    requires forall i :: 0 <= i < k ==> CountIn(bs, kind, Plate(i)) == p
    ensures PlatesCount(bs, kind, k) == k * p
  {
    if k > 0 {
      PlatesCountUniform(bs, kind, k - 1, p);
      assert CountIn(bs, kind, Plate(k - 1)) == p;
      assert k * p == (k - 1) * p + p;
    }
  }

  /** Every plate below `divisor` holds as many blocks of type `kind` as plate 0. */
  predicate AllPlatesEqual(bs: seq<Block>, kind: BlockType, divisor: nat) {
    forall i :: 0 <= i < divisor ==> CountIn(bs, kind, Plate(i)) == CountIn(bs, kind, Plate(0))
  }

  /**
   * Whether the place value of `kind` is done: no blocks of it at all, or some on the
   * plates, the same number on every plate, and none left in the source (hundreds and
   * tens) or fewer than the divisor left (ones).
   */
  predicate EqualShareForType(bs: seq<Block>, kind: BlockType, divisor: nat): (done: bool)
    ensures Count(bs, kind) == 0 ==> done
    ensures Count(bs, kind) > 0 && CountIn(bs, kind, Source) == Count(bs, kind) ==> !done
  {
    var total := Count(bs, kind);
    if total == 0 then true
    else
      var inSource := CountIn(bs, kind, Source);
      var inPlates: int := total - inSource;
      if inPlates == 0 then false
      else if !AllPlatesEqual(bs, kind, divisor) then false
      else if kind == Hundred || kind == Ten then inSource == 0
      else inSource < divisor
  }

  /**
   * A place value that is done is a fair share: every plate holds the same positive number
   * of its blocks, a hundred or ten share uses all of them, and a ones share leaves exactly
   * the remainder of their count in the source.
   */
  lemma EqualShareSound(bs: seq<Block>, kind: BlockType, divisor: nat)
    requires divisor > 0 && WellPlaced(bs, divisor)
    requires EqualShareForType(bs, kind, divisor) && Count(bs, kind) > 0
    ensures AllPlatesEqual(bs, kind, divisor)
    ensures CountIn(bs, kind, Plate(0)) > 0
    ensures Count(bs, kind) == divisor * CountIn(bs, kind, Plate(0)) + CountIn(bs, kind, Source)
    ensures kind != One ==> CountIn(bs, kind, Source) == 0
    ensures kind == One ==> CountIn(bs, kind, Plate(0)) == Count(bs, kind) / divisor && CountIn(bs, kind, Source) == Count(bs, kind) % divisor
  {
    ShareCount(bs, kind, divisor);
    var p := CountIn(bs, kind, Plate(0));
    assert Count(bs, kind) - CountIn(bs, kind, Source) != 0;
    PositiveFactor(divisor, p);
    if kind == One {
      DivModUnique(Count(bs, kind), divisor, CountIn(bs, kind, Plate(0)), CountIn(bs, kind, Source));
    }
  }

  lemma PositiveFactor(v: nat, p: nat)
    requires v * p != 0
    ensures p > 0
  {
  }

  /** With equal plates, the blocks of a type are the source's plus divisor times plate 0's. */
  lemma ShareCount(bs: seq<Block>, kind: BlockType, divisor: nat)
    requires divisor > 0 && WellPlaced(bs, divisor) && AllPlatesEqual(bs, kind, divisor)
    ensures Count(bs, kind) == divisor * CountIn(bs, kind, Plate(0)) + CountIn(bs, kind, Source)
  {
    CountPartition(bs, kind, divisor);
    PlatesCountUniform(bs, kind, divisor, CountIn(bs, kind, Plate(0)));
  }

  /** Conversely, a fair share of a type that some plate holds is recognised as done. */
  lemma EqualShareComplete(bs: seq<Block>, kind: BlockType, divisor: nat, p: nat)
    requires divisor > 0 && WellPlaced(bs, divisor) && p > 0
    requires forall i :: 0 <= i < divisor ==> CountIn(bs, kind, Plate(i)) == p
    requires if kind == One then CountIn(bs, kind, Source) < divisor else CountIn(bs, kind, Source) == 0
    ensures EqualShareForType(bs, kind, divisor)
  {
    CountPartition(bs, kind, divisor);
    PlatesCountUniform(bs, kind, divisor, p);
    MulMonotone(divisor, 0, p);
  }

  /** How many rows of the long division are revealed, from the place values done. */
  function CompletedSteps(dividend: nat, hundredsDone: bool, tensDone: bool, onesDone: bool): (n: nat)
    ensures n <= NumDigits(dividend) && n <= 3
    ensures !hundredsDone && !tensDone && !onesDone ==> n == 0
  {
    var numDigits := NumDigits(dividend);
    if numDigits == 3 then
      if hundredsDone && tensDone && onesDone then 3
      else if hundredsDone && tensDone then 2
      else if hundredsDone then 1
      else 0
    else if numDigits == 2 then
      if tensDone && onesDone then 2
      else if tensDone then 1
      else 0
    else if numDigits == 1 then
      if onesDone then 1 else 0
    else 0
  }

  /** The number of leading flags that are set. */
  function LeadingDone(flags: seq<bool>): (n: nat)
    ensures n <= |flags|
    ensures forall i :: 0 <= i < n ==> flags[i]
    ensures n < |flags| ==> !flags[n]
  {
    if flags == [] || !flags[0] then 0 else 1 + LeadingDone(flags[1..])
  }

  /**
   * The rows revealed are the place values done from the most significant digit down to the
   * first one not done; a dividend of four or more digits reveals nothing.
   */
  lemma CompletedStepsPrefix(dividend: nat, h: bool, t: bool, o: bool)
    ensures CompletedSteps(dividend, h, t, o) <= NumDigits(dividend)
    ensures 1 <= NumDigits(dividend) <= 3 ==> CompletedSteps(dividend, h, t, o) == LeadingDone([h, t, o][3 - NumDigits(dividend)..])
    ensures NumDigits(dividend) >= 4 <==> dividend >= 1000
    ensures dividend >= 1000 ==> CompletedSteps(dividend, h, t, o) == 0
  {
    NumDigitsRange(dividend);
    var flags := [h, t, o];
    var n := NumDigits(dividend);
    assert LeadingDone([o]) == if o then 1 else 0 by {
      assert [o][1..] == [];
    }
    assert LeadingDone([t, o]) == if t then 1 + LeadingDone([o]) else 0 by {
      assert [t, o][1..] == [o];
    }
    assert LeadingDone(flags) == if h then 1 + LeadingDone([t, o]) else 0 by {
      assert flags[1..] == [t, o];
    }
    assert flags[2..] == [o] && flags[1..] == [t, o] && flags[0..] == flags;
  }

  /** Finishing more place values never hides a row. */
  lemma CompletedStepsMonotone(dividend: nat, h: bool, t: bool, o: bool, h2: bool, t2: bool, o2: bool)
    requires (h ==> h2) && (t ==> t2) && (o ==> o2)
    ensures CompletedSteps(dividend, h, t, o) <= CompletedSteps(dividend, h2, t2, o2)
  {
  }

  /** The rows revealed never outnumber the rows of a long division with a positive dividend and divisor. */
  lemma CompletedStepsWithinSteps(dividend: nat, divisor: nat, h: bool, t: bool, o: bool)
    requires dividend > 0 && divisor > 0
    ensures CompletedSteps(dividend, h, t, o) <= |Steps(dividend, divisor)|
  {
    CompletedStepsPrefix(dividend, h, t, o);
    StepsShape(dividend, divisor);
  }

  /** With a zero dividend the long division has no rows, yet a done ones place counts one row revealed. */
  lemma ZeroDividendQuirk(divisor: nat, h: bool, t: bool)
    ensures Steps(0, divisor) == []
    ensures CompletedSteps(0, h, t, true) == 1
  {
    NumDigitsRange(0);
  }
}
