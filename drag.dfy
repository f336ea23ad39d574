/**
 * Dropping a dragged block on a container: one block, or a batch of blocks of the same
 * type taken from the same container as the dragged one.
 */
module Drag {
  import opened Wrappers
  import opened Blocks

  /** The first block in the list with the given id, if any. */
  function Find(bs: seq<Block>, id: nat): (r: Option<Block>)
    ensures r.Some? ==> r.value in bs && r.value.id == id
    ensures r.None? ==> forall k :: 0 <= k < |bs| ==> bs[k].id != id
  {
    if bs == [] then None
    else if bs[0].id == id then Some(bs[0])
    else Find(bs[1..], id)
  }

  /** With distinct ids, the block found for an id is the block at the index carrying it. */
  lemma FindUnique(bs: seq<Block>, k: nat)
    requires UniqueIds(bs) && k < |bs|
    ensures Find(bs, bs[k].id) == Some(bs[k])
  {
    var r := Find(bs, bs[k].id);
    assert r.Some?;
    var j :| 0 <= j < |bs| && bs[j] == r.value;
    assert j == k;
  }

  /** The ids of a block list, in order. */
  function Ids(bs: seq<Block>): (ids: seq<nat>)
    ensures |ids| == |bs|
  {
    seq(|bs|, k requires 0 <= k < |bs| => bs[k].id)
  }

  /** Every block whose id is listed in `ids` moves to `target`; all others stay. */
  function Relocate(bs: seq<Block>, ids: seq<nat>, target: Container): (r: seq<Block>)
    ensures |r| == |bs|
  {
    seq(|bs|, k requires 0 <= k < |bs| => if bs[k].id in ids then bs[k].(container := target) else bs[k])
  }

  /** A block that may travel with `dragged`: same type, same container, another id. */
  predicate Companion(b: Block, dragged: Block) {
    b.kind == dragged.kind && b.container == dragged.container && b.id != dragged.id
  }

  /** The companions of `dragged`, in list order. */
  function Companions(bs: seq<Block>, dragged: Block): seq<Block> {
    if bs == [] then []
    else Companions(bs[..|bs| - 1], dragged) + (if Companion(bs[|bs| - 1], dragged) then [bs[|bs| - 1]] else [])
  }

  /** The blocks after a drop of the block `active` on `target`, with `batch` blocks to move. */
  function Moved(bs: seq<Block>, active: nat, target: Container, batch: nat): (r: seq<Block>)
    requires batch >= 1
    ensures |r| == |bs|
    ensures forall k :: 0 <= k < |bs| ==>
      r[k].id == bs[k].id && r[k].kind == bs[k].kind && (r[k].container == bs[k].container || r[k].container == target)
  {
    if batch == 1 then Relocate(bs, [active], target)
    else
      match Find(bs, active)
      case None => bs
      case Some(dragged) => Relocate(bs, MovingIds(bs, dragged, batch), target)
  }

  /** The ids that move in a batch drop: the dragged block's, then those of its first batch - 1 companions. */
  function MovingIds(bs: seq<Block>, dragged: Block, batch: nat): seq<nat>
    requires batch >= 1
  {
    var others := Companions(bs, dragged);
    [dragged.id] + Ids(others[..if batch - 1 <= |others| then batch - 1 else |others|])
  }

  /**
   * A drop changes only containers, and only to the target: ids and types stay where they
   * were in the list, so the total value and every type count are unchanged.
   */
  lemma MovedKeepsBlocks(bs: seq<Block>, active: nat, target: Container, batch: nat)
    requires batch >= 1
    ensures |Moved(bs, active, target, batch)| == |bs|
    ensures forall k :: 0 <= k < |bs| ==>
      var b := Moved(bs, active, target, batch)[k];
      b.id == bs[k].id && b.kind == bs[k].kind && (b.container == bs[k].container || b.container == target)
    ensures ValueOf(Moved(bs, active, target, batch)) == ValueOf(bs)
    ensures forall kind :: Count(Moved(bs, active, target, batch), kind) == Count(bs, kind)
  {
    SameKindsSameValue(Moved(bs, active, target, batch), bs);
  }

  /** A drop keeps ids distinct and, on a droppable target, every block on a droppable container. */
  lemma MovedSound(bs: seq<Block>, active: nat, target: Container, batch: nat, divisor: nat)
    requires batch >= 1 && Droppable(target, divisor)
    requires WellPlaced(bs, divisor) && UniqueIds(bs)
    ensures WellPlaced(Moved(bs, active, target, batch), divisor) && UniqueIds(Moved(bs, active, target, batch))
  {
    MovedKeepsBlocks(bs, active, target, batch);
  }

  /** With a batch of one, the dragged block is the only one that changes container. */
  lemma MoveSingle(bs: seq<Block>, active: nat, target: Container)
    ensures forall k :: 0 <= k < |bs| ==>
      Moved(bs, active, target, 1)[k] == if bs[k].id == active then bs[k].(container := target) else bs[k]
  {
  }

  /** Dragging an id that no block carries changes nothing when moving a batch. */
  lemma MoveBatchMissing(bs: seq<Block>, active: nat, target: Container, batch: nat)
    requires batch >= 2
    requires forall k :: 0 <= k < |bs| ==> bs[k].id != active
    ensures Moved(bs, active, target, batch) == bs
  {
  }

  /** A companion at index k sits at position |Companions(bs[..k])| of the companions. */
  lemma {:induction false} CompanionsIndex(bs: seq<Block>, dragged: Block, k: nat)
    requires k < |bs| && Companion(bs[k], dragged)
    ensures |Companions(bs[..k], dragged)| < |Companions(bs, dragged)|
    ensures Companions(bs, dragged)[|Companions(bs[..k], dragged)|] == bs[k]
  {
    var init := bs[..|bs| - 1];
    if k == |bs| - 1 {
      assert init == bs[..k];
    } else {
      assert init[..k] == bs[..k];
      CompanionsIndex(init, dragged, k);
    }
  }

  /** Every companion comes from some index j of the list, and its position counts the companions before j. */
  lemma {:induction false} CompanionsSource(bs: seq<Block>, dragged: Block, m: nat)
    requires m < |Companions(bs, dragged)|
    ensures exists j :: 0 <= j < |bs| && Companions(bs, dragged)[m] == bs[j] && |Companions(bs[..j], dragged)| == m
  {
    var init := bs[..|bs| - 1];
    if m < |Companions(init, dragged)| {
      CompanionsSource(init, dragged, m);
      var j :| 0 <= j < |init| && Companions(init, dragged)[m] == init[j] && |Companions(init[..j], dragged)| == m;
      assert init[..j] == bs[..j];
      assert Companions(bs, dragged)[m] == bs[j];
    } else {
      assert init == bs[..|bs| - 1];
      assert Companions(bs, dragged)[m] == bs[|bs| - 1];
    }
  }

  /** Every companion satisfies the companion test. */
  lemma {:induction false} CompanionsAre(bs: seq<Block>, dragged: Block)
    ensures forall x :: x in Companions(bs, dragged) ==> Companion(x, dragged) && x in bs
  {
    if bs != [] {
      CompanionsAre(bs[..|bs| - 1], dragged);
    }
  }

  /**
   * With a batch of two or more and distinct ids, a drop moves the dragged block and
   * exactly those companions (same type, same container) that have fewer than batch - 1
   * companions before them in the list: the first batch - 1 of them in list order.
   * No other block moves.
   */
  lemma MoveBatch(bs: seq<Block>, a: nat, target: Container, batch: nat)
    requires batch >= 2 && UniqueIds(bs) && a < |bs|
    ensures forall k :: 0 <= k < |bs| ==>
      Moved(bs, bs[a].id, target, batch)[k] ==
        if k == a || (Companion(bs[k], bs[a]) && |Companions(bs[..k], bs[a])| < batch - 1)
        then bs[k].(container := target) else bs[k]
  {
    FindUnique(bs, a);
    var ids := MovingIds(bs, bs[a], batch);
    assert Moved(bs, bs[a].id, target, batch) == Relocate(bs, ids, target);
    forall k | 0 <= k < |bs| && k != a
      ensures (bs[k].id in ids) <==> (Companion(bs[k], bs[a]) && |Companions(bs[..k], bs[a])| < batch - 1)
    {
      if Companion(bs[k], bs[a]) {
        MovingCompanion(bs, a, batch, k);
      } else {
        MovingOnlyCompanions(bs, a, batch, k);
      }
    }
  }

  /** A companion at index k moves exactly when fewer than batch - 1 companions come before it. */
  lemma MovingCompanion(bs: seq<Block>, a: nat, batch: nat, k: nat)
    requires batch >= 2 && UniqueIds(bs) && a < |bs| && k < |bs| && Companion(bs[k], bs[a])
    ensures bs[k].id in MovingIds(bs, bs[a], batch) <==> |Companions(bs[..k], bs[a])| < batch - 1
  {
    var dragged := bs[a];
    var others := Companions(bs, dragged);
    var n := if batch - 1 <= |others| then batch - 1 else |others|;
    var extra := others[..n];
    var ids := MovingIds(bs, dragged, batch);
    assert ids == [dragged.id] + Ids(extra);
    var m := |Companions(bs[..k], dragged)|;
    CompanionsIndex(bs, dragged, k);
    if m < batch - 1 {
      assert extra[m] == bs[k];
      assert ids[m + 1] == bs[k].id;
    }
    if bs[k].id in ids {
      var p :| 0 <= p < |ids| && ids[p] == bs[k].id;
      assert p > 0;
      var q := p - 1;
      assert extra[q].id == bs[k].id;
      CompanionsSource(bs, dragged, q);
      var j :| 0 <= j < |bs| && others[q] == bs[j] && |Companions(bs[..j], dragged)| == q;
      assert j == k;
    }
  }

  /** A block other than the dragged one that is not a companion does not move. */
  lemma MovingOnlyCompanions(bs: seq<Block>, a: nat, batch: nat, k: nat)
    requires batch >= 1 && UniqueIds(bs) && a < |bs| && k < |bs| && k != a && !Companion(bs[k], bs[a])
    ensures bs[k].id !in MovingIds(bs, bs[a], batch)
  {
    var dragged := bs[a];
    var others := Companions(bs, dragged);
    var n := if batch - 1 <= |others| then batch - 1 else |others|;
    var extra := others[..n];
    var ids := MovingIds(bs, dragged, batch);
    assert ids == [dragged.id] + Ids(extra);
    CompanionsAre(bs, dragged);
    forall p | 0 <= p < |ids| ensures ids[p] != bs[k].id {
      if p > 0 {
        assert extra[p - 1] in others;
        var j :| 0 <= j < |bs| && bs[j] == extra[p - 1];
        assert Companion(bs[j], dragged);
        assert j != k;
      }
    }
  }
}
