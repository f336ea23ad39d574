/**
 * The glue: every container's blocks are rebuilt with ten ones carried into a ten and
 * ten tens into a hundred, so no container holds ten or more ones or tens afterwards.
 */
module Merge {
  import opened Blocks

  /** The containers the glue visits, in order: the source, then plates 0 to divisor - 1. */
  function Containers(divisor: nat): (cs: seq<Container>)
    ensures |cs| == divisor + 1 && cs[0] == Source
    ensures forall i :: 0 <= i < divisor ==> cs[i + 1] == Plate(i)
  {
    [Source] + seq(divisor, i requires 0 <= i < divisor => Plate(i))
  }

  /** One more plate adds one more container at the end. */
  lemma ContainersSnoc(divisor: nat)
    requires divisor > 0
    ensures Containers(divisor) == Containers(divisor - 1) + [Plate(divisor - 1)]
  {
    var a, b := Containers(divisor), Containers(divisor - 1) + [Plate(divisor - 1)];
    assert |a| == |b|;
    forall i | 0 <= i < |a| ensures a[i] == b[i] {
      if i > 0 && i < divisor {
        assert a[i] == Plate(i - 1);
      }
    }
  }

  /** The glue visits exactly the droppable containers. */
  lemma ContainersDroppable(divisor: nat, c: Container)
    ensures c in Containers(divisor) <==> Droppable(c, divisor)
  {
    var cs := Containers(divisor);
    if c.Plate? && c.index < divisor {
      assert cs[c.index + 1] == c;
    }
  }

  /** How many hundreds, tens and ones. */
  datatype Counts = Counts(hundreds: nat, tens: nat, ones: nat)

  function CountsValue(n: Counts): nat {
    100 * n.hundreds + 10 * n.tens + n.ones
  }

  /** The sum of two counts, type by type. */
  function Plus(x: Counts, y: Counts): Counts {
    Counts(x.hundreds + y.hundreds, x.tens + y.tens, x.ones + y.ones)
  }

  /** `n` blocks of type `kind` and nothing else. */
  function Only(kind: BlockType, n: nat): Counts {
    match kind
    case Hundred => Counts(n, 0, 0)
    case Ten => Counts(0, n, 0)
    case One => Counts(0, 0, n)
  }

  /**
   * The counts of each type in a list of blocks, as one `Counts` record. The glue carries
   * and lays out all three counts of a container together, so it works on this record
   * rather than on `Blocks.Count` per type; `TallyFacts` proves the two agree.
   */
  function Tally(bs: seq<Block>): Counts {
    if bs == [] then Counts(0, 0, 0) else Plus(Tally(bs[..|bs| - 1]), Only(bs[|bs| - 1].kind, 1))
  }

  /** The counts of each type lying in container `c`. */
  function CountsIn(bs: seq<Block>, c: Container): Counts {
    Tally(InContainer(bs, c))
  }

  /** The tally agrees with the per-type counts and with the value of the list. */
  lemma {:induction false} TallyFacts(bs: seq<Block>)
    ensures Tally(bs).hundreds == Count(bs, Hundred)
    ensures Tally(bs).tens == Count(bs, Ten)
    ensures Tally(bs).ones == Count(bs, One)
    ensures CountsValue(Tally(bs)) == ValueOf(bs)
  {
    if bs != [] {
      TallyFacts(bs[..|bs| - 1]);
    }
  }

  lemma {:induction false} TallyAppend(a: seq<Block>, b: seq<Block>)
    ensures Tally(a + b) == Plus(Tally(a), Tally(b))
  {
    if b == [] {
      assert a + b == a;
    } else {
      assert (a + b)[..|a + b| - 1] == a + b[..|b| - 1];
      TallyAppend(a, b[..|b| - 1]);
    }
  }

  lemma {:induction false} TallyRun(kind: BlockType, c: Container, first: nat, n: nat)
    ensures Tally(Run(kind, c, first, n)) == Only(kind, n)
  {
    if n > 0 {
      assert Run(kind, c, first, n)[..n - 1] == Run(kind, c, first, n - 1);
      TallyRun(kind, c, first, n - 1);
    }
  }

  /** Carrying: every ten ones become a ten, then every ten tens become a hundred. */
  function Carry(n: Counts): Counts {
    var tens := n.tens + n.ones / 10;
    Counts(n.hundreds + tens / 10, tens % 10, n.ones % 10)
  }

  /** Carrying keeps the value, leaves fewer than ten tens and ten ones, and changes nothing when there is nothing to carry. */
  lemma CarryFacts(n: Counts)
    ensures CountsValue(Carry(n)) == CountsValue(n)
    ensures Carry(n).tens < 10 && Carry(n).ones < 10
    ensures n.tens < 10 && n.ones < 10 ==> Carry(n) == n
  {
    var tens := n.tens + n.ones / 10;
    assert n.ones == 10 * (n.ones / 10) + n.ones % 10;
    assert tens == 10 * (tens / 10) + tens % 10;
  }

  /** The hundreds, then the tens, then the ones of `n`, all in `c`, with consecutive ids from `first`. */
  function Layout(c: Container, n: Counts, first: nat): seq<Block> {
    Run(Hundred, c, first, n.hundreds) + Run(Ten, c, first + n.hundreds, n.tens) + Run(One, c, first + n.hundreds + n.tens, n.ones)
  }

  lemma CountsAppend(a: seq<Block>, b: seq<Block>, d: Container)
    ensures CountsIn(a + b, d) == Plus(CountsIn(a, d), CountsIn(b, d))
  {
    InContainerAppend(a, b, d);
    TallyAppend(InContainer(a, d), InContainer(b, d));
  }

  /** A layout lies wholly in its container and numbers its blocks consecutively. */
  lemma LayoutIds(c: Container, n: Counts, first: nat)
    ensures |Layout(c, n, first)| == n.hundreds + n.tens + n.ones
    ensures forall k :: 0 <= k < |Layout(c, n, first)| ==> Layout(c, n, first)[k].id == first + k && Layout(c, n, first)[k].container == c
  {
  }

  /** A layout holds exactly the given counts in its container and nothing elsewhere. */
  lemma LayoutCounts(c: Container, n: Counts, first: nat, d: Container)
    ensures CountsIn(Layout(c, n, first), d) == if d == c then n else Counts(0, 0, 0)
  {
    if d == c {
      LayoutCountsHere(c, n, first);
    } else {
      LayoutCountsElsewhere(c, n, first, d);
    }
  }

  lemma LayoutCountsHere(c: Container, n: Counts, first: nat)
    ensures CountsIn(Layout(c, n, first), c) == n
  {
    var rh, rt, ro := Run(Hundred, c, first, n.hundreds), Run(Ten, c, first + n.hundreds, n.tens), Run(One, c, first + n.hundreds + n.tens, n.ones);
    RunCountsHere(Hundred, c, first, n.hundreds);
    RunCountsHere(Ten, c, first + n.hundreds, n.tens);
    RunCountsHere(One, c, first + n.hundreds + n.tens, n.ones);
    CountsOfThree(rh, rt, ro, c, Only(Hundred, n.hundreds), Only(Ten, n.tens), Only(One, n.ones));
  }

  lemma CountsOfThree(a: seq<Block>, b: seq<Block>, e: seq<Block>, c: Container, x: Counts, y: Counts, z: Counts)
    requires CountsIn(a, c) == x && CountsIn(b, c) == y && CountsIn(e, c) == z
    ensures CountsIn(a + b + e, c) == Plus(Plus(x, y), z)
  {
    CountsAppend(a, b, c);
    CountsAppend(a + b, e, c);
  }

  lemma RunCountsHere(kind: BlockType, c: Container, first: nat, n: nat)
    ensures CountsIn(Run(kind, c, first, n), c) == Only(kind, n)
  {
    RunFacts(kind, c, first, n);
    TallyRun(kind, c, first, n);
  }

  lemma LayoutCountsElsewhere(c: Container, n: Counts, first: nat, d: Container)
    requires d != c
    ensures CountsIn(Layout(c, n, first), d) == Counts(0, 0, 0)
  {
    LayoutIds(c, n, first);
    InContainerNone(Layout(c, n, first), d);
  }

  /** The rebuilt blocks of the containers `cs`, one container after the other, numbered 1, 2, 3, ... */
  function MergedOver(bs: seq<Block>, cs: seq<Container>): seq<Block> {
    if cs == [] then []
    else
      var prev := MergedOver(bs, cs[..|cs| - 1]);
      prev + Layout(cs[|cs| - 1], Carry(CountsIn(bs, cs[|cs| - 1])), |prev| + 1)
  }

  /** The blocks after the glue, for a problem with `divisor` plates. */
  function Merged(bs: seq<Block>, divisor: nat): seq<Block> {
    MergedOver(bs, Containers(divisor))
  }

  /** No container appears twice. */
  predicate Distinct(cs: seq<Container>) {
    forall i, j :: 0 <= i < j < |cs| ==> cs[i] != cs[j]
  }

  /** The blocks are numbered 1, 2, 3, ... in list order. */
  predicate Numbered(s: seq<Block>) {
    forall k :: 0 <= k < |s| ==> s[k].id == k + 1
  }

  /** Every block lies in one of the containers `cs`. */
  predicate PlacedIn(s: seq<Block>, cs: seq<Container>) {
    forall k :: 0 <= k < |s| ==> s[k].container in cs
  }

  lemma {:induction false} MergedOverIds(bs: seq<Block>, cs: seq<Container>)
    ensures Numbered(MergedOver(bs, cs))
  {
    if cs != [] {
      MergedOverIds(bs, cs[..|cs| - 1]);
      MergedOverSnoc(bs, cs);
      NumberedStep(MergedOver(bs, cs[..|cs| - 1]), cs[|cs| - 1], Carry(CountsIn(bs, cs[|cs| - 1])));
    }
  }

  /** Appending a layout numbered on from `prev` keeps the numbering. */
  lemma NumberedStep(prev: seq<Block>, last: Container, n: Counts)
    requires Numbered(prev)
    ensures Numbered(prev + Layout(last, n, |prev| + 1))
  {
    LayoutIds(last, n, |prev| + 1);
  }

  lemma {:induction false} MergedOverPlaces(bs: seq<Block>, cs: seq<Container>)
    ensures PlacedIn(MergedOver(bs, cs), cs)
  {
    if cs != [] {
      MergedOverPlaces(bs, cs[..|cs| - 1]);
      MergedOverSnoc(bs, cs);
      PlacedStep(MergedOver(bs, cs[..|cs| - 1]), cs, Carry(CountsIn(bs, cs[|cs| - 1])));
    }
  }

  /** Appending a layout in the last container keeps every block among the containers. */
  lemma PlacedStep(prev: seq<Block>, cs: seq<Container>, n: Counts)
    requires cs != [] && PlacedIn(prev, cs[..|cs| - 1])
    ensures PlacedIn(prev + Layout(cs[|cs| - 1], n, |prev| + 1), cs)
  {
    LayoutIds(cs[|cs| - 1], n, |prev| + 1);
    assert cs == cs[..|cs| - 1] + [cs[|cs| - 1]];
  }

  lemma MergedOverCounts(bs: seq<Block>, cs: seq<Container>, c: Container)
    requires Distinct(cs)
    ensures CountsIn(MergedOver(bs, cs), c) == if c in cs then Carry(CountsIn(bs, c)) else Counts(0, 0, 0)
  {
    if c in cs {
      MergedOverCountsIn(bs, cs, c);
    } else {
      MergedOverCountsOut(bs, cs, c);
    }
  }

  lemma MergedOverCountsOut(bs: seq<Block>, cs: seq<Container>, c: Container)
    requires c !in cs
    ensures CountsIn(MergedOver(bs, cs), c) == Counts(0, 0, 0)
  {
    MergedOverPlaces(bs, cs);
    InContainerNone(MergedOver(bs, cs), c);
  }

  lemma {:induction false} MergedOverCountsIn(bs: seq<Block>, cs: seq<Container>, c: Container)
    requires Distinct(cs) && c in cs
    ensures CountsIn(MergedOver(bs, cs), c) == Carry(CountsIn(bs, c))
  {
    var init, last := cs[..|cs| - 1], cs[|cs| - 1];
    MergedOverSnoc(bs, cs);
    DistinctSnoc(cs, c);
    if c == last {
      MergedOverCountsOut(bs, init, c);
      CountsStepHere(MergedOver(bs, init), last, Carry(CountsIn(bs, last)));
    } else {
      MergedOverCountsIn(bs, init, c);
      CountsStepElsewhere(MergedOver(bs, init), last, Carry(CountsIn(bs, last)), c);
    }
  }

  lemma CountsStepHere(prev: seq<Block>, last: Container, n: Counts)
    requires CountsIn(prev, last) == Counts(0, 0, 0)
    ensures CountsIn(prev + Layout(last, n, |prev| + 1), last) == n
  {
    LayoutCountsHere(last, n, |prev| + 1);
    CountsStep(prev, Layout(last, n, |prev| + 1), last, Counts(0, 0, 0), n);
    PlusZero(n);
  }

  lemma CountsStepElsewhere(prev: seq<Block>, last: Container, n: Counts, c: Container)
    requires c != last
    ensures CountsIn(prev + Layout(last, n, |prev| + 1), c) == CountsIn(prev, c)
  {
    LayoutCountsElsewhere(last, n, |prev| + 1, c);
    CountsStep(prev, Layout(last, n, |prev| + 1), c, CountsIn(prev, c), Counts(0, 0, 0));
    PlusZero(CountsIn(prev, c));
  }

  lemma MergedOverSnoc(bs: seq<Block>, cs: seq<Container>)
    requires cs != []
    ensures MergedOver(bs, cs) == MergedOver(bs, cs[..|cs| - 1]) + Layout(cs[|cs| - 1], Carry(CountsIn(bs, cs[|cs| - 1])), |MergedOver(bs, cs[..|cs| - 1])| + 1)
  {
  }

  /** Dropping the last container of a distinct list keeps it distinct and leaves the last one out. */
  lemma DistinctSnoc(cs: seq<Container>, c: Container)
    requires Distinct(cs) && cs != []
    ensures Distinct(cs[..|cs| - 1]) && cs[|cs| - 1] !in cs[..|cs| - 1]
    ensures c in cs <==> c in cs[..|cs| - 1] || c == cs[|cs| - 1]
  {
    assert cs == cs[..|cs| - 1] + [cs[|cs| - 1]];
  }

  lemma PlusZero(x: Counts)
    ensures Plus(Counts(0, 0, 0), x) == x && Plus(x, Counts(0, 0, 0)) == x
  {
  }

  lemma CountsStep(prev: seq<Block>, l: seq<Block>, c: Container, x: Counts, y: Counts)
    requires CountsIn(prev, c) == x && CountsIn(l, c) == y
    ensures CountsIn(prev + l, c) == Plus(x, y)
  {
    CountsAppend(prev, l, c);
  }

  lemma ContainersDistinct(divisor: nat)
    ensures Distinct(Containers(divisor))
  {
  }

  /** A container's value, read off its counts. */
  lemma ContainerValueByCounts(bs: seq<Block>, c: Container)
    ensures ContainerValue(bs, c) == CountsValue(CountsIn(bs, c))
  {
    TallyFacts(InContainer(bs, c));
  }

  /** The glue keeps the value of the source and of every plate. */
  lemma MergeKeepsValues(bs: seq<Block>, divisor: nat, c: Container)
    requires Droppable(c, divisor)
    ensures ContainerValue(Merged(bs, divisor), c) == ContainerValue(bs, c)
  {
    ContainersDistinct(divisor);
    MergedOverCountsIn(bs, Containers(divisor), c);
    CarryFacts(CountsIn(bs, c));
    ContainerValueByCounts(Merged(bs, divisor), c);
    ContainerValueByCounts(bs, c);
  }

  /** After the glue no container holds ten or more ones, or ten or more tens. */
  lemma MergeCarries(bs: seq<Block>, divisor: nat, c: Container)
    ensures CountIn(Merged(bs, divisor), One, c) < 10 && CountIn(Merged(bs, divisor), Ten, c) < 10
  {
    ContainersDistinct(divisor);
    MergedOverCounts(bs, Containers(divisor), c);
    CarryFacts(CountsIn(bs, c));
    TallyFacts(InContainer(Merged(bs, divisor), c));
  }

  /** The glued blocks lie in the source or on a plate and carry distinct ids 1, 2, 3, ... */
  lemma MergeSound(bs: seq<Block>, divisor: nat)
    ensures WellPlaced(Merged(bs, divisor), divisor) && UniqueIds(Merged(bs, divisor))
    ensures Numbered(Merged(bs, divisor))
  {
    var m := Merged(bs, divisor);
    MergedOverIds(bs, Containers(divisor));
    MergedOverPlaces(bs, Containers(divisor));
    forall k | 0 <= k < |m| ensures Droppable(m[k].container, divisor) {
      ContainersDroppable(divisor, m[k].container);
    }
  }

  /** When every block lies in the source or on a plate, the glue keeps the total value. */
  lemma MergeKeepsTotal(bs: seq<Block>, divisor: nat)
    requires WellPlaced(bs, divisor)
    ensures ValueOf(Merged(bs, divisor)) == ValueOf(bs)
  {
    MergeSound(bs, divisor);
    MergeKeepsValues(bs, divisor, Source);
    MergeKeepsPlates(bs, divisor);
    PartitionAgree(Merged(bs, divisor), bs, divisor);
  }

  /** Two well-placed lists with the same source value and the same plate total have the same value. */
  lemma PartitionAgree(a: seq<Block>, b: seq<Block>, divisor: nat)
    requires WellPlaced(a, divisor) && WellPlaced(b, divisor)
    requires ContainerValue(a, Source) == ContainerValue(b, Source)
    requires PlatesValue(a, divisor) == PlatesValue(b, divisor)
    ensures ValueOf(a) == ValueOf(b)
  {
    ValuePartition(a, divisor);
    ValuePartition(b, divisor);
  }

  lemma MergeKeepsPlates(bs: seq<Block>, divisor: nat)
    ensures PlatesValue(Merged(bs, divisor), divisor) == PlatesValue(bs, divisor)
  {
    forall i | 0 <= i < divisor ensures ContainerValue(Merged(bs, divisor), Plate(i)) == ContainerValue(bs, Plate(i)) {
      MergeKeepsValues(bs, divisor, Plate(i));
    }
    PlatesValueEqual(Merged(bs, divisor), bs, divisor);
  }

  /** Lists whose containers carry to the same counts are rebuilt identically. */
  lemma {:induction false} MergedOverAgree(a: seq<Block>, b: seq<Block>, cs: seq<Container>)
    requires forall c :: c in cs ==> Carry(CountsIn(a, c)) == Carry(CountsIn(b, c))
    ensures MergedOver(a, cs) == MergedOver(b, cs)
  {
    if cs != [] {
      MergedOverAgree(a, b, cs[..|cs| - 1]);
    }
  }

  /** Gluing twice is gluing once. */
  lemma MergeIdempotent(bs: seq<Block>, divisor: nat)
    ensures Merged(Merged(bs, divisor), divisor) == Merged(bs, divisor)
  {
    var cs := Containers(divisor);
    var m := Merged(bs, divisor);
    ContainersDistinct(divisor);
    forall c | c in cs ensures Carry(CountsIn(m, c)) == Carry(CountsIn(bs, c)) {
      MergedOverCounts(bs, cs, c);
      CarryFacts(CountsIn(bs, c));
      CarryFacts(CountsIn(m, c));
    }
    MergedOverAgree(m, bs, cs);
  }

  /** Visiting a container that holds nothing adds nothing. */
  lemma MergedOverEmpty(bs: seq<Block>, cs: seq<Container>, c: Container)
    requires CountsIn(bs, c) == Counts(0, 0, 0)
    ensures MergedOver(bs, cs + [c]) == MergedOver(bs, cs)
  {
    assert (cs + [c])[..|cs|] == cs;
  }

  /** When no plate holds a block, the glue rebuilds the source alone. */
  lemma {:induction false} MergedEmptyPlates(bs: seq<Block>, divisor: nat)
    requires forall i :: 0 <= i < divisor ==> CountsIn(bs, Plate(i)) == Counts(0, 0, 0)
    ensures Merged(bs, divisor) == MergedOver(bs, [Source])
  {
    if divisor > 0 {
      MergedEmptyPlates(bs, divisor - 1);
      ContainersSnoc(divisor);
      assert CountsIn(bs, Plate(divisor - 1)) == Counts(0, 0, 0);
      MergedOverEmpty(bs, Containers(divisor - 1), Plate(divisor - 1));
    } else {
      assert Containers(0) == [Source];
    }
  }

  /** The fresh blocks of a problem are already glued: the glue leaves them exactly as they are. */
  lemma MergeFreshBlocks(dividend: nat, divisor: nat)
    ensures Merged(InitialBlocks(dividend), divisor) == InitialBlocks(dividend)
  {
    var bs := InitialBlocks(dividend);
    forall i | 0 <= i < divisor ensures CountsIn(bs, Plate(i)) == Counts(0, 0, 0) {
      FreshCounts(dividend, Plate(i));
    }
    MergedEmptyPlates(bs, divisor);
    FreshSourceGlued(dividend);
  }

  /** A fresh problem's blocks form the layout of the dividend's digits in the source. */
  lemma FreshCounts(dividend: nat, c: Container)
    ensures InitialBlocks(dividend) == Layout(Source, Counts(dividend / 100, (dividend % 100) / 10, dividend % 10), 1)
    ensures CountsIn(InitialBlocks(dividend), c) == if c == Source then Counts(dividend / 100, (dividend % 100) / 10, dividend % 10) else Counts(0, 0, 0)
  {
    LayoutCounts(Source, Counts(dividend / 100, (dividend % 100) / 10, dividend % 10), 1, c);
  }

  lemma FreshSourceGlued(dividend: nat)
    ensures MergedOver(InitialBlocks(dividend), [Source]) == InitialBlocks(dividend)
  {
    var bs := InitialBlocks(dividend);
    var n := Counts(dividend / 100, (dividend % 100) / 10, dividend % 10);
    FreshCounts(dividend, Source);
    CarryFacts(n);
    assert [Source][..0] == [];
    assert MergedOver(bs, [Source]) == MergedOver(bs, []) + Layout(Source, Carry(CountsIn(bs, Source)), 1);
  }

  // ----- the glue as the handler runs it -----

  /** Pushes `n` blocks of type `kind` in container `c`, numbering them after the blocks already there. */
  method AppendRun(blocks: seq<Block>, kind: BlockType, c: Container, n: nat) returns (r: seq<Block>)
    ensures r == blocks + Run(kind, c, |blocks| + 1, n)
  {
    r := blocks;
    var i := 0;
    while i < n
      invariant 0 <= i <= n
      invariant r == blocks + Run(kind, c, |blocks| + 1, i)
    {
      assert Run(kind, c, |blocks| + 1, i + 1) == Run(kind, c, |blocks| + 1, i) + [Block(|blocks| + 1 + i, kind, c)];
      r := r + [Block(|r| + 1, kind, c)];
      i := i + 1;
    }
  }

  /** One container of the glue: count each type, carry, and push the blocks after `next`. */
  method GlueContainer(bs: seq<Block>, cid: Container, next: seq<Block>) returns (r: seq<Block>)
    ensures r == next + Layout(cid, Carry(CountsIn(bs, cid)), |next| + 1)
  {
    var inContainer := InContainer(bs, cid);
    var counts := Tally(inContainer);
    var hundredCount, tenCount, oneCount := counts.hundreds, counts.tens, counts.ones;
    var newTenFromOnes := oneCount / 10;
    oneCount := oneCount % 10;
    tenCount := tenCount + newTenFromOnes;
    var newHundredFromTens := tenCount / 10;
    tenCount := tenCount % 10;
    hundredCount := hundredCount + newHundredFromTens;
    ghost var n := Counts(hundredCount, tenCount, oneCount);
    assert n == Carry(CountsIn(bs, cid));
    r := AppendRun(next, Hundred, cid, hundredCount);
    r := AppendRun(r, Ten, cid, tenCount);
    r := AppendRun(r, One, cid, oneCount);
    LayoutSplit(next, cid, n);
  }

  lemma LayoutSplit(prev: seq<Block>, c: Container, n: Counts)
    ensures prev + Run(Hundred, c, |prev| + 1, n.hundreds) + Run(Ten, c, |prev| + n.hundreds + 1, n.tens)
      + Run(One, c, |prev| + n.hundreds + n.tens + 1, n.ones) == prev + Layout(c, n, |prev| + 1)
  {
  }

  /** One more container glued after the glue of the first i gives the glue of the first i + 1. */
  lemma GlueStep(bs: seq<Block>, cs: seq<Container>, i: nat, next: seq<Block>, r: seq<Block>)
    requires i < |cs| && next == MergedOver(bs, cs[..i])
    requires r == next + Layout(cs[i], Carry(CountsIn(bs, cs[i])), |next| + 1)
    ensures r == MergedOver(bs, cs[..i + 1])
  {
    MergedOverPrefix(bs, cs, i);
  }

  /** The glue over the first i + 1 containers extends the glue over the first i by the layout of container i. */
  lemma MergedOverPrefix(bs: seq<Block>, cs: seq<Container>, i: nat)
    requires i < |cs|
    ensures MergedOver(bs, cs[..i + 1]) == MergedOver(bs, cs[..i]) + Layout(cs[i], Carry(CountsIn(bs, cs[i])), |MergedOver(bs, cs[..i])| + 1)
  {
    assert cs[..i + 1][..i] == cs[..i];
  }

  /**
   * The glue: container by container (the source, then the plates in order), count each
   * type, carry ones into tens and tens into hundreds, and lay the blocks out again.
   */
  method GlueBlocks(bs: seq<Block>, divisor: nat) returns (next: seq<Block>)
    ensures next == Merged(bs, divisor)
  {
    var cs := Containers(divisor);
    next := [];
    var i := 0;
    while i < |cs|
      invariant 0 <= i <= |cs|
      invariant next == MergedOver(bs, cs[..i])
    {
      var r := GlueContainer(bs, cs[i], next);
      GlueStep(bs, cs, i, next, r);
      next := r;
      i := i + 1;
    }
    assert cs[..|cs|] == cs;
  }
}
