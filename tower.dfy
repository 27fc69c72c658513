/**
 * A tower: the stack of blocks on one peg (TowerOfHanoi.js, class Tower).
 * Blocks are represented by their ids; a larger id is a wider block. The
 * source only ever pushes onto and truncates its block array, so the array
 * is dense and is modelled as a sequence, bottom block first.
 */
module Towers {
  import opened Wrappers
  import opened Geometry

  /** The block at the top of a tower, or None when the tower is empty. */
  function Top(blocks: seq<int>): (r: Option<int>)
  {
    if blocks == [] then None else Some(blocks[|blocks| - 1])
  }

  /** What addBlock leaves: the block is appended only while there is a free slot. */
  function Pushed(blocks: seq<int>, block: int, capacity: nat): (r: seq<int>)
  {
    if |blocks| < capacity then blocks + [block] else blocks
  }

  /** What removeTop leaves: the top block is dropped; an empty tower stays empty. */
  function Popped(blocks: seq<int>): (r: seq<int>)
  {
    if blocks == [] then [] else blocks[..|blocks| - 1]
  }

  /** The puzzle's stacking rule: ids strictly decrease from the bottom up. */
  predicate Decreasing(blocks: seq<int>)
  {
    forall j, k :: 0 <= j < k < |blocks| ==> blocks[j] > blocks[k]
  }

  /** A block may go onto an empty tower or onto a strictly larger top block. */
  predicate Legal(moveBlock: int, destTop: Option<int>)
  {
    destTop.None? || moveBlock < destTop.value
  }

  /** addBlock makes the block the new top exactly when there is room, and otherwise changes nothing. */
  lemma PushedTop(blocks: seq<int>, block: int, capacity: nat)
    ensures |blocks| < capacity ==>
      Top(Pushed(blocks, block, capacity)) == Some(block) && Popped(Pushed(blocks, block, capacity)) == blocks
    ensures |blocks| >= capacity ==> Pushed(blocks, block, capacity) == blocks
  {
    if |blocks| < capacity {
      assert (blocks + [block])[..|blocks|] == blocks;
    }
  }

  /** removeTop takes away exactly the block getTopBlock reports, and is a no-op on an empty tower. */
  lemma PoppedTop(blocks: seq<int>)
    ensures blocks != [] ==> Top(blocks).Some? && Popped(blocks) + [Top(blocks).value] == blocks
    ensures blocks == [] ==> Top(blocks) == None && Popped(blocks) == []
  {
  }

  /** On an ordered tower, a placement is legal exactly when the block is smaller than every block there. */
  lemma LegalMeansSmallest(blocks: seq<int>, block: int)
    requires Decreasing(blocks)
    ensures Legal(block, Top(blocks)) <==> forall j :: 0 <= j < |blocks| ==> block < blocks[j]
  {
    if blocks != [] && Legal(block, Top(blocks)) {
      forall j | 0 <= j < |blocks|
        ensures block < blocks[j]
      {
        if j < |blocks| - 1 {
          assert blocks[j] > blocks[|blocks| - 1];
        }
      }
    }
  }

  /** A legal placement keeps a tower in order. */
  lemma {:induction false} LegalPushKeepsOrder(blocks: seq<int>, block: int, capacity: nat)
    requires Decreasing(blocks) && Legal(block, Top(blocks))
    ensures Decreasing(Pushed(blocks, block, capacity))
  {
    if |blocks| < capacity && blocks != [] {
      var r := blocks + [block];
      forall j, k | 0 <= j < k < |r|
        ensures r[j] > r[k]
      {
        if k == |blocks| && j < |blocks| - 1 {
          assert blocks[j] > blocks[|blocks| - 1];
        }
      }
    }
  }

  /** Removing the top keeps a tower in order. */
  lemma PopKeepsOrder(blocks: seq<int>)
    requires Decreasing(blocks)
    ensures Decreasing(Popped(blocks))
  {
  }

  /** One peg of the puzzle. */
  class Tower {
    /** The capacity: the number of blocks in the whole game. */
    const totalBlocks: nat
    /** Block ids, bottom first. */
    var blocks: seq<int>
    /** Whether this tower is the one currently picked up. */
    var selected: bool
    /** The tower's hit-test region, laid out by the (unmodelled) resize code. */
    const bounds: BoundingBox

    constructor (totalBlocks: nat)
      ensures this.totalBlocks == totalBlocks && blocks == [] && !selected
      ensures fresh(bounds)
    {
      this.totalBlocks := totalBlocks;
      blocks := [];
      selected := false;
      bounds := new BoundingBox();
    }

    /**
     * Scans the first totalBlocks slots for an empty one and pushes the block
     * when it finds one. In a dense array the slot i is empty exactly when
     * i is past the end, so this appends iff the tower is not full.
     */
    method AddBlock(block: int)
      modifies this
      ensures blocks == Pushed(old(blocks), block, totalBlocks)
      ensures selected == old(selected)
    {
      var i := 0;
      while i < totalBlocks
        invariant 0 <= i <= totalBlocks
        invariant i <= |blocks|
        invariant blocks == old(blocks)
      {
        if |blocks| <= i {
          blocks := blocks + [block];
          return;
        }
        i := i + 1;
      }
    }

    /** The top block, or None when the tower is empty. */
    function GetTopBlock(): (r: Option<int>)
      reads this
      ensures r == None <==> blocks == []
      ensures r.Some? ==> r.value == blocks[|blocks| - 1]
    {
      Top(blocks)
    }

    /** Truncates the array by one when it is non-empty. */
    method RemoveTop()
      modifies this
      ensures blocks == Popped(old(blocks))
      ensures selected == old(selected)
    {
      if |blocks| > 0 {
        blocks := blocks[..|blocks| - 1];
      }
    }

    /** Empties the tower and clears its selection flag. */
    method Reset()
      modifies this
      ensures blocks == [] && !selected
    {
      blocks := [];
      selected := false;
    }
  }
}
