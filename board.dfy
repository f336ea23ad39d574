/**
 * One manipulative board: the blocks of the current problem, the undo history, the hammer
 * tool and the batch size for moves. Every handler that changes the blocks first saves the
 * current blocks in the history, which keeps at most twenty snapshots.
 */
module Board {
  import opened Wrappers
  import opened Blocks
  import opened Drag
  import opened Hammer
  import opened Merge

  /** The number of snapshots the undo history keeps. */
  const HistoryLimit: nat := 20

  /**
   * The history after saving `snapshot`: the most recent HistoryLimit - 1 entries of
   * `history`, in order, followed by the snapshot.
   */
  function Pushed<T>(history: seq<T>, snapshot: T): (h: seq<T>)
    ensures |h| == 1 + if |history| < HistoryLimit then |history| else HistoryLimit - 1
    ensures |h| <= HistoryLimit && h[|h| - 1] == snapshot
    ensures forall k :: 0 <= k < |h| - 1 ==> h[k] == history[|history| - (|h| - 1) + k]
  {
    var keep := if |history| < HistoryLimit then |history| else HistoryLimit - 1;
    history[|history| - keep..] + [snapshot]
  }

  /** Below the limit nothing is dropped: taking the snapshot back off returns the old history. */
  lemma PushedUndone<T>(history: seq<T>, snapshot: T)
    requires |history| < HistoryLimit
    ensures Pushed(history, snapshot)[..|Pushed(history, snapshot)| - 1] == history
  {
  }

  /** At the limit the oldest snapshot is dropped, and only that one. */
  lemma PushedFull<T>(history: seq<T>, snapshot: T)
    requires |history| == HistoryLimit
    ensures |Pushed(history, snapshot)| == HistoryLimit
    ensures Pushed(history, snapshot)[..HistoryLimit - 1] == history[1..]
  {
  }

  /** A list of blocks that could be on the board of `dividend` ÷ `divisor`. */
  predicate Sound(bs: seq<Block>, dividend: nat, divisor: nat) {
    WellPlaced(bs, divisor) && UniqueIds(bs) && ValueOf(bs) == dividend
  }

  predicate AllSound(history: seq<seq<Block>>, dividend: nat, divisor: nat) {
    forall k :: 0 <= k < |history| ==> Sound(history[k], dividend, divisor)
  }

  /** Saving a sound snapshot in a sound history keeps every snapshot sound. */
  lemma PushedSound(history: seq<seq<Block>>, snapshot: seq<Block>, dividend: nat, divisor: nat)
    requires AllSound(history, dividend, divisor) && Sound(snapshot, dividend, divisor)
    ensures AllSound(Pushed(history, snapshot), dividend, divisor)
  {
    var h := Pushed(history, snapshot);
    forall k | 0 <= k < |h| ensures Sound(h[k], dividend, divisor) {
      if k < |h| - 1 {
        assert h[k] == history[|history| - (|h| - 1) + k];
      }
    }
  }

  /** Gluing a sound board gives a sound board. */
  lemma MergedStaysSound(bs: seq<Block>, dividend: nat, divisor: nat)
    requires Sound(bs, dividend, divisor)
    ensures Sound(Merged(bs, divisor), dividend, divisor)
  {
    MergeKeepsTotal(bs, divisor);
    MergeSound(bs, divisor);
  }

  /** Carrying absorbs a broken block: ten tens carry back into the hundred, ten ones into the ten. */
  lemma CarryAbsorbsBreak(n: Counts, m: Counts, kind: BlockType)
    requires kind == Hundred ==> n.hundreds >= 1 && m == Counts(n.hundreds - 1, n.tens + 10, n.ones)
    requires kind == Ten ==> n.tens >= 1 && m == Counts(n.hundreds, n.tens - 1, n.ones + 10)
    requires kind == One ==> m == n
    ensures Carry(m) == Carry(n)
  {
    if kind == Ten {
      assert (n.ones + 10) / 10 == n.ones / 10 + 1;
    } else if kind == Hundred {
      assert (n.tens + 10 + n.ones / 10) / 10 == (n.tens + n.ones / 10) / 10 + 1;
    }
  }

  /** A container's counts are its numbers of hundreds, tens and ones. */
  lemma CountsInByKind(bs: seq<Block>, c: Container)
    ensures CountsIn(bs, c) == Counts(CountIn(bs, Hundred, c), CountIn(bs, Ten, c), CountIn(bs, One, c))
  {
    TallyFacts(InContainer(bs, c));
  }

  /** The counts of each container after breaking block `bs[k]`: only its own container changes. */
  lemma SplitCountsIn(bs: seq<Block>, k: nat, c: Container)
    requires UniqueIds(bs) && k < |bs| && bs[k].kind != One
    ensures var n, m := CountsIn(bs, c), CountsIn(Split(bs, bs[k].id), c);
      && (c != bs[k].container ==> m == n)
      && (c == bs[k].container && bs[k].kind == Hundred ==> n.hundreds >= 1 && m == Counts(n.hundreds - 1, n.tens + 10, n.ones))
      && (c == bs[k].container && bs[k].kind == Ten ==> n.tens >= 1 && m == Counts(n.hundreds, n.tens - 1, n.ones + 10))
  {
    var r := Split(bs, bs[k].id);
    CountsInByKind(bs, c);
    CountsInByKind(r, c);
    SplitCountIn(bs, k, c, Hundred);
    SplitCountIn(bs, k, c, Ten);
    SplitCountIn(bs, k, c, One);
  }

  /**
   * Gluing undoes the hammer: a board glued after a hammer blow is the board glued without
   * it, since the ten new blocks carry back into the one that was broken.
   */
  lemma GlueAfterSplit(bs: seq<Block>, id: nat, divisor: nat)
    requires UniqueIds(bs)
    ensures Merged(Split(bs, id), divisor) == Merged(bs, divisor)
  {
    var f := Find(bs, id);
    if f.Some? && f.value.kind != One {
      var k :| 0 <= k < |bs| && bs[k] == f.value;
      var r := Split(bs, id);
      var cs := Containers(divisor);
      forall c | c in cs ensures Carry(CountsIn(r, c)) == Carry(CountsIn(bs, c)) {
        SplitCountsIn(bs, k, c);
        if c == bs[k].container {
          CarryAbsorbsBreak(CountsIn(bs, c), CountsIn(r, c), bs[k].kind);
        }
      }
      MergedOverAgree(r, bs, cs);
    }
  }

  class Board {
    const dividend: nat
    const divisor: nat
    var blocks: seq<Block>
    var history: seq<seq<Block>>
    var hammer: bool
    var batchCount: nat

    /**
     * The board invariant: the blocks, and every saved snapshot, lie in the source or on
     * a plate, carry distinct ids and are worth the dividend; the history holds at most
     * HistoryLimit snapshots and the batch size is at least one.
     */
    predicate Valid()
      reads this
    {
      && divisor > 0
      && batchCount >= 1
      && Sound(blocks, dividend, divisor)
      && |history| <= HistoryLimit
      && AllSound(history, dividend, divisor)
    }

    /**
     * A fresh board: every block of the dividend in the source, no history and no hammer.
     * The batch size is not reset: the board starts with whatever the batch-size field
     * holds, which is 1 only when the page first loads.
     */
    constructor (dividend: nat, divisor: nat, batch: nat)
      requires divisor > 0 && batch >= 1
      ensures Valid()
      ensures this.dividend == dividend && this.divisor == divisor
      ensures blocks == InitialBlocks(dividend) && history == [] && !hammer && batchCount == batch
    {
      this.dividend := dividend;
      this.divisor := divisor;
      var start := CreateBlocks(dividend);
      InitialBlocksFacts(dividend);
      InitialBlocksSound(dividend, divisor);
      blocks := start;
      history := [];
      hammer := false;
      batchCount := batch;
    }

    /** The batch-size field: an entry that is missing, not a number or below one becomes one. */
    method SetBatchCount(entry: Option<int>)
      requires Valid()
      modifies this
      ensures Valid()
      ensures batchCount == if entry.Some? && entry.value >= 1 then entry.value else 1
      ensures blocks == old(blocks) && history == old(history) && hammer == old(hammer)
    {
      batchCount := if entry.Some? && entry.value >= 1 then entry.value else 1;
    }

    /** The hammer button switches the hammer on and off. */
    method ToggleHammer()
      requires Valid()
      modifies this
      ensures Valid()
      ensures hammer == !old(hammer)
      ensures blocks == old(blocks) && history == old(history) && batchCount == old(batchCount)
    {
      hammer := !hammer;
    }

    /**
     * The end of a drag of block `active`: dropped outside every container, or on a
     * container that is neither the source nor one of the plates, nothing happens;
     * otherwise the blocks are saved and the drop moves the dragged block, with up to
     * batchCount - 1 companions when moving in batches. The page removes its drag
     * listeners while the hammer is on; this method may still be called then, so the
     * model allows a drop the page never delivers.
     */
    method DragEnd(active: nat, over: Option<Container>)
      requires Valid()
      modifies this
      ensures Valid()
      ensures if over.None? || !Droppable(over.value, divisor) then
          blocks == old(blocks) && history == old(history)
        else
          history == Pushed(old(history), old(blocks)) && blocks == Moved(old(blocks), active, over.value, batchCount)
      ensures hammer == old(hammer) && batchCount == old(batchCount)
    {
      if over.None? || !Droppable(over.value, divisor) {
        return;
      }
      PushedSound(history, blocks, dividend, divisor);
      MovedKeepsBlocks(blocks, active, over.value, batchCount);
      MovedSound(blocks, active, over.value, batchCount, divisor);
      history := Pushed(history, blocks);
      blocks := Moved(blocks, active, over.value, batchCount);
    }

    /**
     * A click on block `id`: without the hammer nothing happens; with it the blocks are
     * saved (even when the click breaks nothing) and the block is broken.
     */
    method BlockClick(id: nat)
      requires Valid()
      modifies this
      ensures Valid()
      ensures if !old(hammer) then blocks == old(blocks) && history == old(history)
        else history == Pushed(old(history), old(blocks)) && blocks == Split(old(blocks), id)
      ensures hammer == old(hammer) && batchCount == old(batchCount)
    {
      if !hammer {
        return;
      }
      PushedSound(history, blocks, dividend, divisor);
      SplitKeepsValues(blocks, id, Source);
      SplitSound(blocks, id, divisor);
      history := Pushed(history, blocks);
      blocks := Split(blocks, id);
    }

    /** The state setters of one handler: new blocks, new history and the hammer switch, all at once. */
    method SetState(nextBlocks: seq<Block>, nextHistory: seq<seq<Block>>, nextHammer: bool)
      modifies this
      ensures blocks == nextBlocks && history == nextHistory && hammer == nextHammer && batchCount == old(batchCount)
    {
      blocks, history, hammer := nextBlocks, nextHistory, nextHammer;
    }

    /** The glue button: save the blocks, glue every container and put the hammer away. */
    method MergeAll()
      requires Valid()
      modifies this
      ensures Valid()
      ensures history == Pushed(old(history), old(blocks)) && blocks == Merged(old(blocks), divisor)
      ensures !hammer && batchCount == old(batchCount)
    {
      var next := GlueBlocks(blocks, divisor);
      PushedSound(history, blocks, dividend, divisor);
      MergedStaysSound(blocks, dividend, divisor);
      SetState(next, Pushed(history, blocks), false);
    }

    /** The reset button: save the blocks, put every block of the dividend back in the source and the hammer away. */
    method Reset()
      requires Valid()
      modifies this
      ensures Valid()
      ensures history == Pushed(old(history), old(blocks)) && blocks == InitialBlocks(dividend)
      ensures !hammer && batchCount == old(batchCount)
    {
      PushedSound(history, blocks, dividend, divisor);
      InitialBlocksFacts(dividend);
      InitialBlocksSound(dividend, divisor);
      var start := CreateBlocks(dividend);
      history := Pushed(history, blocks);
      blocks := start;
      hammer := false;
    }

    /** The undo button: with an empty history nothing happens; otherwise the last snapshot comes back and leaves the history. */
    method Undo()
      requires Valid()
      modifies this
      ensures Valid()
      ensures if old(history) == [] then blocks == old(blocks) && history == []
        else blocks == old(history)[|old(history)| - 1] && history == old(history)[..|old(history)| - 1]
      ensures hammer == old(hammer) && batchCount == old(batchCount)
    {
      if |history| == 0 {
        return;
      }
      blocks := history[|history| - 1];
      history := history[..|history| - 1];
    }
  }
}
