/**
 * The hammer: clicking a hundred in hammer mode breaks it into ten tens, clicking a ten
 * breaks it into ten ones, both in the clicked block's container. Ones do not break.
 */
module Hammer {
  import opened Wrappers
  import opened Blocks
  import opened Drag

  /** The type a broken block turns into. */
  function Smaller(t: BlockType): (s: BlockType)
    requires t != One
    ensures 10 * Value(s) == Value(t)
  {
    if t == Hundred then Ten else One
  }

  /** The list without the blocks carrying `id`, in order. */
  function Without(bs: seq<Block>, id: nat): seq<Block> {
    if bs == [] then []
    else Without(bs[..|bs| - 1], id) + (if bs[|bs| - 1].id != id then [bs[|bs| - 1]] else [])
  }

  /** The largest id in the list, 0 for an empty list. */
  function MaxId(bs: seq<Block>): (m: nat)
    ensures forall k :: 0 <= k < |bs| ==> bs[k].id <= m
  {
    if bs == [] then 0
    else
      var m := MaxId(bs[..|bs| - 1]);
      if bs[|bs| - 1].id > m then bs[|bs| - 1].id else m
  }

  /** The blocks after a hammer blow on the block `id`; the ten new blocks take ids above all existing ones. */
  function Split(bs: seq<Block>, id: nat): (r: seq<Block>)
    ensures forall x :: x in r ==> x in bs || x.id > MaxId(bs)
    ensures forall x :: x in r ==> x.id != id || x in bs
  {
    match Find(bs, id)
    case None => bs
    case Some(target) =>
      if target.kind == One then bs
      else
        WithoutElements(bs, id);
        Without(bs, id) + Run(Smaller(target.kind), target.container, MaxId(bs) + 1, 10)
  }

  lemma {:induction false} WithoutElements(bs: seq<Block>, id: nat)
    ensures forall x :: x in Without(bs, id) ==> x in bs && x.id != id
    ensures UniqueIds(bs) ==> UniqueIds(Without(bs, id))
  {
    if bs != [] {
      var init := bs[..|bs| - 1];
      WithoutElements(init, id);
      if UniqueIds(bs) {
        var w := Without(init, id);
        forall x | x in w ensures x.id != bs[|bs| - 1].id {
          var j :| 0 <= j < |init| && init[j] == x;
        }
      }
    }
  }

  lemma {:induction false} WithoutAbsent(bs: seq<Block>, id: nat)
    requires forall k :: 0 <= k < |bs| ==> bs[k].id != id
    ensures Without(bs, id) == bs
  {
    if bs != [] {
      WithoutAbsent(bs[..|bs| - 1], id);
    }
  }

  /** Removing the one block carrying `id` removes its value and its count from the total. */
  lemma {:induction false} WithoutTotal(bs: seq<Block>, k: nat)
    requires UniqueIds(bs) && k < |bs|
    ensures ValueOf(bs) == ValueOf(Without(bs, bs[k].id)) + Value(bs[k].kind)
    ensures forall kind :: Count(bs, kind) == Count(Without(bs, bs[k].id), kind) + (if bs[k].kind == kind then 1 else 0)
  {
    var id := bs[k].id;
    var init, last := bs[..|bs| - 1], bs[|bs| - 1];
    assert ValueOf(bs) == ValueOf(init) + Value(last.kind);
    if k == |bs| - 1 {
      WithoutAbsent(init, id);
      assert Without(bs, id) == init;
    } else {
      WithoutTotal(init, k);
      var w := Without(init, id);
      assert Without(bs, id) == w + [last];
      assert (w + [last])[..|w|] == w;
    }
  }

  /** Removing the one block carrying `id` removes its value from its own container only. */
  lemma {:induction false} WithoutContainerValue(bs: seq<Block>, k: nat, c: Container)
    requires UniqueIds(bs) && k < |bs|
    ensures ContainerValue(bs, c) == ContainerValue(Without(bs, bs[k].id), c) + (if bs[k].container == c then Value(bs[k].kind) else 0)
  {
    var id := bs[k].id;
    var init, last := bs[..|bs| - 1], bs[|bs| - 1];
    var single := if last.container == c then [last] else [];
    assert InContainer(bs, c) == InContainer(init, c) + single;
    ValueAppend(InContainer(init, c), single);
    if k == |bs| - 1 {
      WithoutAbsent(init, id);
      assert Without(bs, id) == init;
    } else {
      WithoutContainerValue(init, k, c);
      var w := Without(init, id);
      assert Without(bs, id) == w + [last];
      assert (w + [last])[..|w|] == w;
      assert InContainer(w + [last], c) == InContainer(w, c) + single;
      ValueAppend(InContainer(w, c), single);
      assert init[k] == bs[k];
    }
  }

  /** Removing the one block carrying `id` removes its count from its own container only. */
  lemma {:induction false} WithoutContainerCount(bs: seq<Block>, k: nat, c: Container, kind: BlockType)
    requires UniqueIds(bs) && k < |bs|
    ensures CountIn(bs, kind, c) == CountIn(Without(bs, bs[k].id), kind, c) + (if bs[k].kind == kind && bs[k].container == c then 1 else 0)
  {
    var id := bs[k].id;
    var init, last := bs[..|bs| - 1], bs[|bs| - 1];
    var single := if last.container == c then [last] else [];
    assert InContainer(bs, c) == InContainer(init, c) + single;
    CountAppend(InContainer(init, c), single, kind);
    if k == |bs| - 1 {
      WithoutAbsent(init, id);
      assert Without(bs, id) == init;
    } else {
      WithoutContainerCount(init, k, c, kind);
      var w := Without(init, id);
      assert Without(bs, id) == w + [last];
      assert (w + [last])[..|w|] == w;
      assert InContainer(w + [last], c) == InContainer(w, c) + single;
      CountAppend(InContainer(w, c), single, kind);
      assert init[k] == bs[k];
    }
  }

  /**
   * A hammer blow changes no container's value: a broken hundred becomes ten tens and a
   * broken ten becomes ten ones in the same container, so every container, and the whole
   * list, keeps its value.
   */
  lemma SplitKeepsValues(bs: seq<Block>, id: nat, c: Container)
    requires UniqueIds(bs)
    ensures ContainerValue(Split(bs, id), c) == ContainerValue(bs, c)
    ensures ValueOf(Split(bs, id)) == ValueOf(bs)
  {
    var f := Find(bs, id);
    if f.Some? && f.value.kind != One {
      var k :| 0 <= k < |bs| && bs[k] == f.value;
      SplitKeepsContainer(bs, k, c);
      SplitKeepsTotal(bs, k);
    }
  }

  /** Breaking block `bs[k]` keeps the value of container `c`. */
  lemma SplitKeepsContainer(bs: seq<Block>, k: nat, c: Container)
    requires UniqueIds(bs) && k < |bs| && bs[k].kind != One
    ensures ContainerValue(Split(bs, bs[k].id), c) == ContainerValue(bs, c)
  {
    var t := bs[k];
    FindUnique(bs, k);
    var s := Smaller(t.kind);
    var w := Without(bs, t.id);
    var run := Run(s, t.container, MaxId(bs) + 1, 10);
    assert Split(bs, t.id) == w + run;
    WithoutContainerValue(bs, k, c);
    RunFacts(s, t.container, MaxId(bs) + 1, 10);
    assert ContainerValue(run, c) == if t.container == c then 10 * Value(s) else 0;
    ContainerAppend(w, run, c);
  }

  /** Breaking block `bs[k]` keeps the value of the whole list. */
  lemma SplitKeepsTotal(bs: seq<Block>, k: nat)
    requires UniqueIds(bs) && k < |bs| && bs[k].kind != One
    ensures ValueOf(Split(bs, bs[k].id)) == ValueOf(bs)
  {
    var t := bs[k];
    FindUnique(bs, k);
    var s := Smaller(t.kind);
    var w := Without(bs, t.id);
    var run := Run(s, t.container, MaxId(bs) + 1, 10);
    assert Split(bs, t.id) == w + run;
    WithoutTotal(bs, k);
    RunCounts(s, t.container, MaxId(bs) + 1, 10);
    ValueAppend(w, run);
  }

  /**
   * What a hammer blow does: on a hundred or a ten, the block is removed, every other block
   * keeps its place in order, and ten blocks of the next smaller type are appended in the
   * broken block's container, so that container has one block fewer of the broken type and
   * ten more of the smaller type. On a one, or an id no block carries, nothing changes.
   */
  lemma SplitShape(bs: seq<Block>, k: nat)
    requires UniqueIds(bs) && k < |bs|
    ensures var r := Split(bs, bs[k].id);
      if bs[k].kind == One then r == bs
      else
        && |r| == |bs| + 9
        && r[..|bs| - 1] == Without(bs, bs[k].id)
        && (forall j :: |bs| - 1 <= j < |r| ==> r[j].kind == Smaller(bs[k].kind) && r[j].container == bs[k].container)
        && CountIn(r, bs[k].kind, bs[k].container) + 1 == CountIn(bs, bs[k].kind, bs[k].container)
        && CountIn(r, Smaller(bs[k].kind), bs[k].container) == CountIn(bs, Smaller(bs[k].kind), bs[k].container) + 10
  {
    var t := bs[k];
    FindUnique(bs, k);
    if t.kind != One {
      var w := Without(bs, t.id);
      var run := Run(Smaller(t.kind), t.container, MaxId(bs) + 1, 10);
      assert Split(bs, t.id) == w + run;
      WithoutLength(bs, k);
      assert (w + run)[..|bs| - 1] == w;
      SplitCounts(bs, k);
    }
  }

  /** Breaking block `bs[k]` takes one block of its type out of its container and puts ten of the smaller type in. */
  lemma SplitCounts(bs: seq<Block>, k: nat)
    requires UniqueIds(bs) && k < |bs| && bs[k].kind != One
    ensures CountIn(Split(bs, bs[k].id), bs[k].kind, bs[k].container) + 1 == CountIn(bs, bs[k].kind, bs[k].container)
    ensures CountIn(Split(bs, bs[k].id), Smaller(bs[k].kind), bs[k].container) == CountIn(bs, Smaller(bs[k].kind), bs[k].container) + 10
  {
    SplitCountIn(bs, k, bs[k].container, bs[k].kind);
    SplitCountIn(bs, k, bs[k].container, Smaller(bs[k].kind));
  }

  /**
   * Breaking block `bs[k]` changes the counts of one container only, its own: one block
   * of the broken type fewer and ten of the smaller type more.
   */
  lemma SplitCountIn(bs: seq<Block>, k: nat, c: Container, kind: BlockType)
    requires UniqueIds(bs) && k < |bs| && bs[k].kind != One
    ensures CountIn(Split(bs, bs[k].id), kind, c) + (if bs[k].kind == kind && bs[k].container == c then 1 else 0)
      == CountIn(bs, kind, c) + (if Smaller(bs[k].kind) == kind && bs[k].container == c then 10 else 0)
  {
    var t := bs[k];
    FindUnique(bs, k);
    var s := Smaller(t.kind);
    var w := Without(bs, t.id);
    var run := Run(s, t.container, MaxId(bs) + 1, 10);
    assert Split(bs, t.id) == w + run;
    WithoutContainerCount(bs, k, c, kind);
    RunFacts(s, t.container, MaxId(bs) + 1, 10);
    ContainerAppend(w, run, c);
    assert CountIn(run, kind, c) == if s == kind && t.container == c then 10 else 0;
  }

  lemma {:induction false} WithoutLength(bs: seq<Block>, k: nat)
    requires UniqueIds(bs) && k < |bs|
    ensures |Without(bs, bs[k].id)| == |bs| - 1
  {
    var init := bs[..|bs| - 1];
    if k == |bs| - 1 {
      WithoutAbsent(init, bs[k].id);
    } else {
      WithoutLength(init, k);
    }
  }

  /** A hammer blow on an id no block carries changes nothing. */
  lemma SplitMissing(bs: seq<Block>, id: nat)
    requires forall k :: 0 <= k < |bs| ==> bs[k].id != id
    ensures Split(bs, id) == bs
  {
  }

  /** A hammer blow keeps ids distinct and every block in the source or on a plate. */
  lemma SplitSound(bs: seq<Block>, id: nat, divisor: nat)
    requires UniqueIds(bs) && WellPlaced(bs, divisor)
    ensures UniqueIds(Split(bs, id)) && WellPlaced(Split(bs, id), divisor)
  {
    match Find(bs, id)
    case None =>
    case Some(target) =>
      if target.kind != One {
        var w := Without(bs, id);
        var run := Run(Smaller(target.kind), target.container, MaxId(bs) + 1, 10);
        var r := w + run;
        WithoutElements(bs, id);
        forall i | 0 <= i < |w| ensures w[i].id <= MaxId(bs) && Droppable(w[i].container, divisor) {
          assert w[i] in w;
          var j :| 0 <= j < |bs| && bs[j] == w[i];
        }
        var k :| 0 <= k < |bs| && bs[k] == target;
        assert Droppable(target.container, divisor);
        forall i, j | 0 <= i < j < |r| ensures r[i].id != r[j].id {
          if j < |w| {
          } else if i >= |w| {
            assert r[i].id == MaxId(bs) + 1 + (i - |w|);
          }
        }
      }
  }
}
