/**
 * Base-ten blocks: hundreds, tens and ones, each lying in the source pool or on one of
 * the plates. This module holds the block values, the decomposition of a dividend into
 * blocks, and the accounting of block values per container.
 */
module Blocks {

  datatype BlockType = Hundred | Ten | One

  /** Where a block lies: the undistributed pool, or the plate with the given index. */
  datatype Container = Source | Plate(index: nat)

  /** A block; only the uniqueness of ids within one block list matters. */
  datatype Block = Block(id: nat, kind: BlockType, container: Container)

  /** The value of a block of the given type. */
  function Value(t: BlockType): nat {
    match t
    case Hundred => 100
    case Ten => 10
    case One => 1
  }

  /** The total value of a block list. */
  function ValueOf(bs: seq<Block>): nat {
    if bs == [] then 0 else ValueOf(bs[..|bs| - 1]) + Value(bs[|bs| - 1].kind)
  }

  /** The number of blocks of one type. */
  function Count(bs: seq<Block>, kind: BlockType): nat {
    if bs == [] then 0 else Count(bs[..|bs| - 1], kind) + (if bs[|bs| - 1].kind == kind then 1 else 0)
  }

  /** The blocks lying in container `c`, in list order. */
  function InContainer(bs: seq<Block>, c: Container): seq<Block> {
    if bs == [] then []
    else InContainer(bs[..|bs| - 1], c) + (if bs[|bs| - 1].container == c then [bs[|bs| - 1]] else [])
  }

  /** The number of blocks of type `kind` lying in container `c`. */
  function CountIn(bs: seq<Block>, kind: BlockType, c: Container): nat {
    Count(InContainer(bs, c), kind)
  }

  /** The total value of the blocks lying in container `c`. */
  function ContainerValue(bs: seq<Block>, c: Container): nat {
    ValueOf(InContainer(bs, c))
  }

  /** The containers blocks may be dropped on: the source and plates 0 to divisor - 1. */
  predicate Droppable(c: Container, divisor: nat) {
    c.Source? || c.index < divisor
  }

  /** Every block lies in the source or on one of the `divisor` plates. */
  predicate WellPlaced(bs: seq<Block>, divisor: nat) {
    forall k :: 0 <= k < |bs| ==> Droppable(bs[k].container, divisor)
  }

  /** No two blocks share an id. */
  predicate UniqueIds(bs: seq<Block>) {
    forall i, j :: 0 <= i < j < |bs| ==> bs[i].id != bs[j].id
  }

  /** `n` blocks of one type in one container, with consecutive ids starting at `first`. */
  function Run(kind: BlockType, c: Container, first: nat, n: nat): (r: seq<Block>)
    ensures |r| == n
  {
    seq(n, k requires 0 <= k < n => Block(first + k, kind, c))
  }

  /** The blocks of a fresh problem: the hundreds, tens and ones of the dividend, all in the source, ids 1, 2, 3, ... */
  function InitialBlocks(dividend: nat): seq<Block> {
    var hundreds, tens, ones := dividend / 100, (dividend % 100) / 10, dividend % 10;
    Run(Hundred, Source, 1, hundreds) + Run(Ten, Source, 1 + hundreds, tens) + Run(One, Source, 1 + hundreds + tens, ones)
  }

  /** Builds the blocks of a fresh problem, one type after the other, numbering them as it goes. */
  method CreateBlocks(dividend: nat) returns (blocks: seq<Block>)
    ensures blocks == InitialBlocks(dividend)
  {
    var hundreds := dividend / 100;
    var tens := (dividend % 100) / 10;
    var ones := dividend % 10;
    blocks := [];
    var id := 1;
    var i := 0;
    while i < hundreds
      invariant 0 <= i <= hundreds && id == 1 + i
      invariant blocks == Run(Hundred, Source, 1, i)
    {
      blocks := blocks + [Block(id, Hundred, Source)];
      id := id + 1;
      i := i + 1;
    }
    i := 0;
    while i < tens
      invariant 0 <= i <= tens && id == 1 + hundreds + i
      invariant blocks == Run(Hundred, Source, 1, hundreds) + Run(Ten, Source, 1 + hundreds, i)
    {
      blocks := blocks + [Block(id, Ten, Source)];
      id := id + 1;
      i := i + 1;
    }
    i := 0;
    while i < ones
      invariant 0 <= i <= ones && id == 1 + hundreds + tens + i
      invariant blocks == Run(Hundred, Source, 1, hundreds) + Run(Ten, Source, 1 + hundreds, tens) + Run(One, Source, 1 + hundreds + tens, i)
    {
      blocks := blocks + [Block(id, One, Source)];
      id := id + 1;
      i := i + 1;
    }
  }

  // ----- accounting over concatenations -----

  lemma {:induction false} ValueAppend(a: seq<Block>, b: seq<Block>)
    ensures ValueOf(a + b) == ValueOf(a) + ValueOf(b)
  {
    if b != [] {
      assert (a + b)[..|a + b| - 1] == a + b[..|b| - 1];
      ValueAppend(a, b[..|b| - 1]);
    } else {
      assert a + b == a;
    }
  }

  lemma {:induction false} CountAppend(a: seq<Block>, b: seq<Block>, kind: BlockType)
    ensures Count(a + b, kind) == Count(a, kind) + Count(b, kind)
  {
    if b != [] {
      assert (a + b)[..|a + b| - 1] == a + b[..|b| - 1];
      CountAppend(a, b[..|b| - 1], kind);
    } else {
      assert a + b == a;
    }
  }

  lemma {:induction false} InContainerAppend(a: seq<Block>, b: seq<Block>, c: Container)
    ensures InContainer(a + b, c) == InContainer(a, c) + InContainer(b, c)
  {
    if b != [] {
      assert (a + b)[..|a + b| - 1] == a + b[..|b| - 1];
      InContainerAppend(a, b[..|b| - 1], c);
    } else {
      assert a + b == a;
    }
  }

  /** Per-container value and counts of a concatenation are the sums of those of its parts. */
  lemma ContainerAppend(a: seq<Block>, b: seq<Block>, c: Container)
    ensures ContainerValue(a + b, c) == ContainerValue(a, c) + ContainerValue(b, c)
    ensures forall kind :: CountIn(a + b, kind, c) == CountIn(a, kind, c) + CountIn(b, kind, c)
  {
    InContainerAppend(a, b, c);
    ValueAppend(InContainer(a, c), InContainer(b, c));
    forall kind ensures CountIn(a + b, kind, c) == CountIn(a, kind, c) + CountIn(b, kind, c) {
      CountAppend(InContainer(a, c), InContainer(b, c), kind);
    }
  }

  /** The filtered list holds only blocks of the list, all lying in `c`. */
  lemma {:induction false} InContainerElements(bs: seq<Block>, c: Container)
    ensures |InContainer(bs, c)| <= |bs|
    ensures forall x :: x in InContainer(bs, c) ==> x in bs && x.container == c
  {
    if bs != [] {
      InContainerElements(bs[..|bs| - 1], c);
    }
  }

  /** A list whose blocks all lie in `c` is its own filter. */
  lemma {:induction false} InContainerAll(bs: seq<Block>, c: Container)
    requires forall k :: 0 <= k < |bs| ==> bs[k].container == c
    ensures InContainer(bs, c) == bs
  {
    if bs != [] {
      InContainerAll(bs[..|bs| - 1], c);
    }
  }

  /** A list with no block in `c` filters to nothing. */
  lemma {:induction false} InContainerNone(bs: seq<Block>, c: Container)
    requires forall k :: 0 <= k < |bs| ==> bs[k].container != c
    ensures InContainer(bs, c) == []
  {
    if bs != [] {
      InContainerNone(bs[..|bs| - 1], c);
    }
  }

  /** The value of a list is what its counts of hundreds, tens and ones add up to. */
  lemma {:induction false} ValueByCounts(bs: seq<Block>)
    ensures ValueOf(bs) == 100 * Count(bs, Hundred) + 10 * Count(bs, Ten) + Count(bs, One)
  {
    if bs != [] {
      ValueByCounts(bs[..|bs| - 1]);
    }
  }

  /** A run of `n` blocks of one type: its value, its counts and where it lies. */
  lemma RunFacts(kind: BlockType, c: Container, first: nat, n: nat)
    ensures ValueOf(Run(kind, c, first, n)) == n * Value(kind)
    ensures forall k :: Count(Run(kind, c, first, n), k) == if k == kind then n else 0
    ensures forall d :: InContainer(Run(kind, c, first, n), d) == if d == c then Run(kind, c, first, n) else []
  {
    RunCounts(kind, c, first, n);
    forall d ensures InContainer(Run(kind, c, first, n), d) == if d == c then Run(kind, c, first, n) else [] {
      if d == c {
        InContainerAll(Run(kind, c, first, n), c);
      } else {
        InContainerNone(Run(kind, c, first, n), d);
      }
    }
  }

  lemma {:induction false} RunCounts(kind: BlockType, c: Container, first: nat, n: nat)
    ensures ValueOf(Run(kind, c, first, n)) == n * Value(kind)
    ensures forall k :: Count(Run(kind, c, first, n), k) == if k == kind then n else 0
  {
    if n > 0 {
      assert Run(kind, c, first, n)[..n - 1] == Run(kind, c, first, n - 1);
      RunCounts(kind, c, first, n - 1);
    }
  }

  /** The three runs of a fresh problem, one after the other, with ids 1, 2, 3, ... in list order. */
  lemma InitialBlocksIds(dividend: nat)
    ensures forall k :: 0 <= k < |InitialBlocks(dividend)| ==> InitialBlocks(dividend)[k].id == k + 1
  {
    var h, t, o := dividend / 100, (dividend % 100) / 10, dividend % 10;
    var rh, rt, ro := Run(Hundred, Source, 1, h), Run(Ten, Source, 1 + h, t), Run(One, Source, 1 + h + t, o);
    var bs := InitialBlocks(dividend);
    assert bs == rh + rt + ro;
    forall k | 0 <= k < |bs| ensures bs[k].id == k + 1 {
      if k < h {
        assert bs[k] == rh[k];
      } else if k < h + t {
        assert bs[k] == rt[k - h];
      } else {
        assert bs[k] == ro[k - h - t];
      }
    }
  }

  /** A fresh problem has dividend / 100 hundreds, (dividend % 100) / 10 tens and dividend % 10 ones. */
  lemma InitialBlocksCounts(dividend: nat)
    ensures Count(InitialBlocks(dividend), Hundred) == dividend / 100
    ensures Count(InitialBlocks(dividend), Ten) == (dividend % 100) / 10
    ensures Count(InitialBlocks(dividend), One) == dividend % 10
  {
    var h, t, o := dividend / 100, (dividend % 100) / 10, dividend % 10;
    var rh, rt, ro := Run(Hundred, Source, 1, h), Run(Ten, Source, 1 + h, t), Run(One, Source, 1 + h + t, o);
    assert InitialBlocks(dividend) == rh + rt + ro;
    RunCounts(Hundred, Source, 1, h);
    RunCounts(Ten, Source, 1 + h, t);
    RunCounts(One, Source, 1 + h + t, o);
    forall kind ensures Count(rh + rt + ro, kind) == Count(rh, kind) + Count(rt, kind) + Count(ro, kind) {
      CountAppend(rh, rt, kind);
      CountAppend(rh + rt, ro, kind);
    }
  }

  /** The hundreds, tens and ones digits of a number add back up to it. */
  lemma DigitsAddUp(dividend: nat)
    ensures 100 * (dividend / 100) + 10 * ((dividend % 100) / 10) + dividend % 10 == dividend
    ensures (dividend % 100) / 10 < 10 && dividend % 10 < 10
  {
  }

  /**
   * A fresh problem's blocks: every block is in the source, there are dividend / 100
   * hundreds, at most 9 tens and at most 9 ones, their values add up to the dividend,
   * and the ids are 1, 2, 3, ... in list order.
   */
  lemma InitialBlocksFacts(dividend: nat)
    ensures InContainer(InitialBlocks(dividend), Source) == InitialBlocks(dividend)
    ensures Count(InitialBlocks(dividend), Hundred) == dividend / 100
    ensures Count(InitialBlocks(dividend), Ten) == (dividend % 100) / 10 < 10
    ensures Count(InitialBlocks(dividend), One) == dividend % 10 < 10
    ensures ValueOf(InitialBlocks(dividend)) == dividend
    ensures forall k :: 0 <= k < |InitialBlocks(dividend)| ==> InitialBlocks(dividend)[k].id == k + 1
  {
    var bs := InitialBlocks(dividend);
    InitialBlocksSource(dividend);
    InitialBlocksCounts(dividend);
    InitialBlocksIds(dividend);
    ValueByCounts(bs);
    DigitsAddUp(dividend);
  }

  /** Every block of a fresh problem lies in the source. */
  lemma InitialBlocksSource(dividend: nat)
    ensures InContainer(InitialBlocks(dividend), Source) == InitialBlocks(dividend)
  {
    var h, t, o := dividend / 100, (dividend % 100) / 10, dividend % 10;
    var rh, rt, ro := Run(Hundred, Source, 1, h), Run(Ten, Source, 1 + h, t), Run(One, Source, 1 + h + t, o);
    var bs := InitialBlocks(dividend);
    assert bs == rh + rt + ro;
    forall k | 0 <= k < |bs| ensures bs[k].container == Source {
      if k < h {
        assert bs[k] == rh[k];
      } else if k < h + t {
        assert bs[k] == rt[k - h];
      } else {
        assert bs[k] == ro[k - h - t];
      }
    }
    InContainerAll(bs, Source);
  }

  /** A fresh problem's blocks are well placed for any divisor and carry distinct ids. */
  lemma InitialBlocksSound(dividend: nat, divisor: nat)
    ensures WellPlaced(InitialBlocks(dividend), divisor) && UniqueIds(InitialBlocks(dividend))
  {
    var bs := InitialBlocks(dividend);
    InitialBlocksFacts(dividend);
    forall k | 0 <= k < |bs| ensures bs[k].container == Source {
      InContainerElements(bs, Source);
      assert bs[k] in InContainer(bs, Source);
    }
  }

  // ----- the source and the plates partition the blocks -----

  /** A single block contributes its value to its own container and nothing to the others. */
  lemma SingleContainerValue(b: Block, c: Container)
    ensures ContainerValue([b], c) == if b.container == c then Value(b.kind) else 0
  {
    var one := [b];
    assert one[..0] == [];
    assert ValueOf(one) == Value(b.kind);
    if b.container == c {
      assert InContainer(one, c) == InContainer([], c) + one;
    } else {
      assert InContainer(one, c) == InContainer([], c) + [];
    }
  }

  /** The total value on plates 0 to k - 1. */
  function PlatesValue(bs: seq<Block>, k: nat): nat {
    if k == 0 then 0 else PlatesValue(bs, k - 1) + ContainerValue(bs, Plate(k - 1))
  }

  lemma {:induction false} PlatesValueSnoc(bs: seq<Block>, b: Block, k: nat)
    ensures PlatesValue(bs + [b], k) == PlatesValue(bs, k) + (if b.container.Plate? && b.container.index < k then Value(b.kind) else 0)
  {
    if k > 0 {
      PlatesValueSnoc(bs, b, k - 1);
      ContainerAppend(bs, [b], Plate(k - 1));
      SingleContainerValue(b, Plate(k - 1));
    }
  }

  /** When every block lies in the source or on a plate, the source and plate values add up to the total. */
  lemma {:induction false} ValuePartition(bs: seq<Block>, divisor: nat)
    requires WellPlaced(bs, divisor)
    ensures ValueOf(bs) == ContainerValue(bs, Source) + PlatesValue(bs, divisor)
  {
    if bs != [] {
      var init, b := bs[..|bs| - 1], bs[|bs| - 1];
      assert bs == init + [b];
      ValuePartition(init, divisor);
      PlatesValueSnoc(init, b, divisor);
      ContainerAppend(init, [b], Source);
      SingleContainerValue(b, Source);
      assert ValueOf(bs) == ValueOf(init) + Value(b.kind);
      assert Droppable(b.container, divisor);
    } else {
      PlatesValueUniform(bs, divisor, 0);
    }
  }

  /** Lists with the same value in every plate below k have the same plate total. */
  lemma {:induction false} PlatesValueEqual(a: seq<Block>, b: seq<Block>, k: nat)
    requires forall i :: 0 <= i < k ==> ContainerValue(a, Plate(i)) == ContainerValue(b, Plate(i))
    ensures PlatesValue(a, k) == PlatesValue(b, k)
  {
    if k > 0 {
      PlatesValueEqual(a, b, k - 1);
      assert ContainerValue(a, Plate(k - 1)) == ContainerValue(b, Plate(k - 1));
    }
  }

  /** When every plate below k holds value p, together they hold k * p. */
  lemma {:induction false} PlatesValueUniform(bs: seq<Block>, k: nat, p: nat)
    requires forall i :: 0 <= i < k ==> ContainerValue(bs, Plate(i)) == p
    ensures PlatesValue(bs, k) == k * p
  {
    if k > 0 {
      PlatesValueUniform(bs, k - 1, p);
      assert ContainerValue(bs, Plate(k - 1)) == p;
      assert k * p == (k - 1) * p + p;
    }
  }

  /** Lists that agree on ids and types index by index have the same value and the same counts. */
  lemma {:induction false} SameKindsSameValue(a: seq<Block>, b: seq<Block>)
    requires |a| == |b| && forall k :: 0 <= k < |a| ==> a[k].kind == b[k].kind
    ensures ValueOf(a) == ValueOf(b)
    ensures forall kind :: Count(a, kind) == Count(b, kind)
  {
    if a != [] {
      SameKindsSameValue(a[..|a| - 1], b[..|b| - 1]);
    }
  }
}
