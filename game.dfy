/**
 * The game object (TowerOfHanoi.js, class TowerOfHanoi) without its canvas:
 * it owns the towers, the block table, the two button regions, the move
 * history, the selection and the state, and changes them in place on reset
 * and on every click. Each method is proved to do what the functions of
 * module Rules say.
 */
module Hanoi {
  import opened Wrappers
  import opened Geometry
  import opened Towers
  import opened Rules

  /**
   * The block table built by the constructor: entry i holds block i for
   * 1 <= i <= n. Entry 0 is never assigned, so it reads as `undefined`, written
   * here as id 0; with no blocks the table is empty.
   */
  function BlockTable(n: nat): (r: seq<int>)
    ensures n == 0 ==> r == []
    ensures n > 0 ==> |r| == n + 1 && r[0] == 0 && forall i :: 1 <= i <= n ==> r[i] == i
  {
    if n == 0 then [] else seq(n + 1, k => k)
  }

  function Min(a: int, b: int): int
  {
    if a < b then a else b
  }

  class TowerOfHanoi {
    const blockCount: nat
    const totalTowers: nat
    const towers: seq<Tower>
    const blocks: seq<int>
    const restartBounds: BoundingBox
    const undoBounds: BoundingBox
    var currentState: GameState
    /** The index of the selected tower, or NoTower. */
    var selectedTower: int
    var moveHistory: seq<Move>

    /** The contents of each tower, bottom first. */
    ghost function Stacks(): seq<seq<int>>
      reads this, towers
    {
      seq(|towers|, j requires 0 <= j < |towers| reads towers => towers[j].blocks)
    }

    /** Each tower's selected flag. */
    ghost function Flags(): seq<bool>
      reads this, towers
    {
      seq(|towers|, j requires 0 <= j < |towers| reads towers => towers[j].selected)
    }

    /** The game as a value of the rules. */
    ghost function Model(): Game
      reads this, towers
    {
      Game(Stacks(), Flags(), selectedTower, moveHistory, currentState)
    }

    /** The fixed shape set up by the constructor: distinct towers sized for blockCount blocks. */
    ghost predicate Shape()
      reads this, towers
    {
      |towers| == totalTowers >= 1
      && (forall j, k :: 0 <= j < k < |towers| ==> towers[j] != towers[k])
      && (forall j :: 0 <= j < |towers| ==> towers[j].totalBlocks == blockCount)
      && blocks == BlockTable(blockCount)
    }

    ghost predicate Valid()
      reads this, towers
    {
      Shape() && Wf(Model(), blockCount)
    }

    /** Which regions contain the point (px, py). */
    ghost function HitsAt(px: real, py: real): Hits
      reads this, towers, set t | t in towers :: t.bounds, restartBounds, undoBounds
    {
      Hits(seq(|towers|, j requires 0 <= j < |towers| reads towers, set t | t in towers :: t.bounds => towers[j].bounds.InBounds(px, py)),
           restartBounds.InBounds(px, py), undoBounds.InBounds(px, py))
    }

    /** Creates the towers and the block table and starts a game (lines 9-63, without the canvas). */
    constructor (totalTowers: nat, blockCount: nat)
      requires totalTowers >= 1
      ensures Valid()
      ensures this.totalTowers == totalTowers && this.blockCount == blockCount
      ensures Model() == Restarted(totalTowers, blockCount)
      ensures fresh(set t | t in towers) && fresh(set t | t in towers :: t.bounds)
      ensures fresh(restartBounds) && fresh(undoBounds)
      ensures restartBounds != undoBounds
      ensures forall j, k :: 0 <= j < k < |towers| ==> towers[j].bounds != towers[k].bounds
      ensures forall j :: 0 <= j < |towers| ==> towers[j].bounds != restartBounds && towers[j].bounds != undoBounds
    {
      this.blockCount := blockCount;
      this.totalTowers := totalTowers;
      var ts: seq<Tower> := [];
      while |ts| < totalTowers
        invariant |ts| <= totalTowers
        invariant forall j, k :: 0 <= j < k < |ts| ==> ts[j] != ts[k]
        invariant forall j :: 0 <= j < |ts| ==> ts[j].totalBlocks == blockCount
        invariant forall t :: t in ts ==> fresh(t) && fresh(t.bounds)
        invariant forall j, k :: 0 <= j < k < |ts| ==> ts[j].bounds != ts[k].bounds
      {
        var t := new Tower(blockCount);
        ts := ts + [t];
      }
      towers := ts;
      blocks := BlockTable(blockCount);
      restartBounds := new BoundingBox();
      undoBounds := new BoundingBox();
      currentState := Playing;
      selectedTower := NoTower;
      moveHistory := [];
      new;
      assert forall t :: t in towers ==> fresh(t);
      Reset();
    }

    /**
     * Back to the start (lines 188-207): Playing, nothing selected, no history,
     * every tower emptied, then blocks[n], ..., blocks[1], blocks[0] offered to
     * tower 0. The last offer is the undefined entry, refused because tower 0 is full.
     */
    method Reset()
      requires Shape()
      modifies this, set t | t in towers
      ensures Shape() && Valid()
      ensures Model() == Restarted(|towers|, blockCount)
    {
      currentState := Playing;
      selectedTower := NoTower;
      moveHistory := [];

      var i := 0;
      while i < |towers|
        invariant 0 <= i <= |towers|
        invariant forall j :: 0 <= j < i ==> towers[j].blocks == [] && !towers[j].selected
        invariant currentState == Playing && selectedTower == NoTower && moveHistory == []
      {
        towers[i].Reset();
        i := i + 1;
      }

      var k := |blocks|;
      while k > 0
        invariant 0 <= k <= |blocks|
        invariant towers[0].blocks == Descending(blockCount)[..Min(|blocks| - k, blockCount)]
        invariant !towers[0].selected
        invariant currentState == Playing && selectedTower == NoTower && moveHistory == []
        invariant forall j :: 1 <= j < |towers| ==> towers[j].blocks == [] && !towers[j].selected
      {
        ghost var added := Min(|blocks| - k, blockCount);
        assert added < blockCount ==> blocks[k - 1] == Descending(blockCount)[added];
        assert added == blockCount || Descending(blockCount)[..added] + [blocks[k - 1]] == Descending(blockCount)[..added + 1];
        towers[0].AddBlock(blocks[k - 1]);
        k := k - 1;
      }
      assert Min(|blocks|, blockCount) == blockCount;
      assert Descending(blockCount)[..blockCount] == Descending(blockCount);
      assert towers[0].blocks == Descending(blockCount);
      assert Stacks() == Restarted(|towers|, blockCount).stacks;
      assert Flags() == Restarted(|towers|, blockCount).flags;

    }

    /** The scan of lines 218-224: the first tower whose region contains the point. */
    method FindTower(px: real, py: real) returns (hit: Option<nat>)
      ensures hit == FirstHit(HitsAt(px, py).towers)
    {
      var i := 0;
      while i < |towers| && !towers[i].bounds.InBounds(px, py)
        invariant 0 <= i <= |towers|
        invariant forall j :: 0 <= j < i ==> !towers[j].bounds.InBounds(px, py)
      {
        i := i + 1;
      }
      hit := if i < |towers| then Some(i) else None;
      ghost var hits := HitsAt(px, py).towers;
      assert |hits| == |towers|;
      assert forall j :: 0 <= j < |towers| ==> hits[j] == towers[j].bounds.InBounds(px, py);
      ghost var first := FirstHit(hits);
      if first.Some? {
        assert first.value == i;
      }
    }

    /** The action on the hit tower i (lines 226-255): select, deselect, or try a move. */
    method SelectOrMove(i: nat)
      requires Valid() && i < |towers|
      modifies this, set t | t in towers
      ensures Model() == TowerStep(old(Model()), blockCount, Some(i))
      ensures Valid()
    {
      if selectedTower == NoTower {
        Select(i);
      } else if selectedTower == i {
        Deselect(i);
      } else {
        TryMove(i);
      }
    }

    /** Lines 226-232: with nothing selected, pick up tower i if it holds a block. */
    method Select(i: nat)
      requires Valid() && i < |towers| && selectedTower == NoTower
      modifies this, set t | t in towers
      ensures Model() == TowerStep(old(Model()), blockCount, Some(i))
      ensures Valid()
    {
      ghost var g := Model();
      var tower := towers[i];
      if |tower.blocks| > 0 {
        tower.selected := true;
        selectedTower := i;
        assert Stacks() == g.stacks;
        assert Flags() == g.flags[i := true];
      }
    }

    /** Lines 233-236: clicking the selected tower puts it down. */
    method Deselect(i: nat)
      requires Valid() && i < |towers| && selectedTower == i
      modifies this, set t | t in towers
      ensures Model() == TowerStep(old(Model()), blockCount, Some(i))
      ensures Valid()
    {
      ghost var g := Model();
      var tower := towers[i];
      tower.selected := false;
      selectedTower := NoTower;
      assert Stacks() == g.stacks;
      assert Flags() == g.flags[i := false];
    }

    /**
     * Lines 237-255: move the top block of the selected tower onto tower i when
     * that is legal, recording the move; the selection is cleared either way.
     */
    method TryMove(i: nat)
      requires Valid() && i < |towers| && selectedTower != NoTower && selectedTower != i
      modifies this, set t | t in towers
      ensures Model() == TowerStep(old(Model()), blockCount, Some(i))
      ensures Valid()
    {
      ghost var g := Model();
      var s: nat := selectedTower;
      MoveIfLegal(s, i);
      DropSelection(s);
      ghost var deselected := g.(flags := g.flags[s := false], selectedTower := NoTower);
      if Legal(Top(g.stacks[s]).value, Top(g.stacks[i])) {
        assert Model() == deselected.(stacks := Transfer(g.stacks, s, i, blockCount), history := g.history + [Move(s, i)]);
      } else {
        assert Model() == deselected;
      }
    }

    /** Lines 252-253: the source tower of a move attempt is put down. */
    method DropSelection(s: nat)
      requires Shape() && s < |towers|
      modifies this, set t | t in towers
      ensures Shape()
      ensures Stacks() == old(Stacks()) && Flags() == old(Flags())[s := false]
      ensures selectedTower == NoTower && moveHistory == old(moveHistory) && currentState == old(currentState)
    {
      var oldTower := towers[s];
      oldTower.selected := false;
      selectedTower := NoTower;
    }

    /** Lines 239-251: the comparison of the two top blocks and, when legal, the move and its record. */
    method MoveIfLegal(s: nat, i: nat)
      requires Shape() && s < |towers| && i < |towers| && s != i && towers[s].blocks != []
      modifies this, set t | t in towers
      ensures Shape()
      ensures var legal := Legal(Top(old(Stacks())[s]).value, Top(old(Stacks())[i]));
        (legal ==> Stacks() == Transfer(old(Stacks()), s, i, blockCount) && moveHistory == old(moveHistory) + [Move(s, i)])
        && (!legal ==> Stacks() == old(Stacks()) && moveHistory == old(moveHistory))
      ensures Flags() == old(Flags()) && selectedTower == old(selectedTower) && currentState == old(currentState)
    {
      var tower := towers[i];
      var oldTower := towers[s];
      var moveBlock := oldTower.GetTopBlock();
      var newTowerTopBlock := tower.GetTopBlock();
      if Legal(moveBlock.value, newTowerTopBlock) {
        Carry(s, i, moveBlock.value);
        moveHistory := moveHistory + [Move(s, i)];
      }
    }

    /**
     * The pair of calls a move makes (lines 246-248) and undo makes in reverse
     * (lines 287-289): add the block to tower dst, then remove the top of tower src.
     */
    method Carry(src: nat, dst: nat, block: int)
      requires Shape() && src < |towers| && dst < |towers| && src != dst
      requires Top(towers[src].blocks) == Some(block)
      modifies set t | t in towers
      ensures Stacks() == Transfer(old(Stacks()), src, dst, blockCount)
      ensures Flags() == old(Flags())
    {
      ghost var stacks := Stacks();
      towers[dst].AddBlock(block);
      towers[src].RemoveTop();
      assert Stacks() == Transfer(stacks, src, dst, blockCount);
      assert Flags() == old(Flags());
    }

    /** The undo action of lines 271-290, run when the button is hit and history is non-empty. */
    method Undo()
      requires Valid() && |moveHistory| > 0
      modifies this, set t | t in towers
      ensures Model() == UndoCheck(old(Model()), blockCount, true)
      ensures Valid()
    {
      ghost var g := Model();
      UndoLast(|towers|, moveHistory, blockCount);
      ghost var cleared :=
        if g.selectedTower != NoTower
        then g.(flags := g.flags[g.selectedTower := false], selectedTower := NoTower)
        else g;
      ClearSelection();
      assert Model() == cleared;
      TakeBack();
      ghost var last := g.history[|g.history| - 1];
      assert Model() == cleared.(stacks := Transfer(g.stacks, last.to, last.from, blockCount), history := g.history[..|g.history| - 1]);
    }

    /** Lines 273-276: drop the selection, if any. */
    method ClearSelection()
      requires Valid()
      modifies this, set t | t in towers
      ensures Shape() && selectedTower == NoTower
      ensures Stacks() == old(Stacks())
      ensures Flags() == if old(selectedTower) != NoTower then old(Flags())[old(selectedTower) := false] else old(Flags())
      ensures moveHistory == old(moveHistory) && currentState == old(currentState)
    {
      if selectedTower != NoTower {
        ghost var flags := Flags();
        ghost var stacks := Stacks();
        towers[selectedTower].selected := false;
        assert Flags() == flags[old(selectedTower) := false];
        assert Stacks() == stacks;
        selectedTower := NoTower;
      }
    }

    /** Lines 278-289: pop the last move and carry its block back. */
    method TakeBack()
      requires Shape() && |moveHistory| > 0
      requires var m := moveHistory[|moveHistory| - 1];
        m.from < |towers| && m.to < |towers| && m.from != m.to && towers[m.to].blocks != []
      modifies this, set t | t in towers
      ensures Shape()
      ensures var m := old(moveHistory[|moveHistory| - 1]);
        Stacks() == Transfer(old(Stacks()), m.to, m.from, blockCount)
      ensures Flags() == old(Flags()) && moveHistory == old(moveHistory[..|moveHistory| - 1])
      ensures selectedTower == old(selectedTower) && currentState == old(currentState)
    {
      ghost var stacks := Stacks();
      ghost var flags := Flags();
      var lastMove := moveHistory[|moveHistory| - 1];
      moveHistory := moveHistory[..|moveHistory| - 1];
      assert Stacks() == stacks && Flags() == flags;
      var newTower := towers[lastMove.to];
      var blockToMove := newTower.GetTopBlock();
      Carry(lastMove.to, lastMove.from, blockToMove.value);
    }

    /** Lines 261-263: the game is won once the last tower holds every block. */
    method CheckWin()
      requires Valid()
      modifies this
      ensures Model() == WinCheck(old(Model()), blockCount)
      ensures Valid()
    {
      ghost var g := Model();
      if |towers[|towers| - 1].blocks| == blockCount {
        currentState := Finished;
        assert Stacks() == g.stacks && Flags() == g.flags;
      }
    }

    /** Lines 266-268 and 298-300: a hit on the restart button resets the game. */
    method CheckRestart(px: real, py: real)
      requires Valid()
      modifies this, set t | t in towers
      ensures Model() == if old(restartBounds.InBounds(px, py)) then Restarted(|towers|, blockCount) else old(Model())
      ensures Valid()
    {
      if restartBounds.InBounds(px, py) {
        Reset();
      }
    }

    /** Lines 271-290: a hit on the undo button takes back the last move, if there is one. */
    method CheckUndo(px: real, py: real)
      requires Valid()
      modifies this, set t | t in towers
      ensures Model() == UndoCheck(old(Model()), blockCount, old(undoBounds.InBounds(px, py)))
      ensures Valid()
    {
      if undoBounds.InBounds(px, py) && |moveHistory| > 0 {
        Undo();
      }
    }

    /** Lines 218-258: the click is passed to the first tower that contains it, if any. */
    method TowerPhase(px: real, py: real)
      requires Valid()
      modifies this, set t | t in towers
      ensures Model() == TowerStep(old(Model()), blockCount, FirstHit(old(HitsAt(px, py)).towers))
      ensures Valid()
    {
      var hit := FindTower(px, py);
      if hit.Some? {
        SelectOrMove(hit.value);
      }
    }

    /** A click at (px, py) (lines 212-309, without the redraw). */
    method HandleClick(px: real, py: real)
      requires Valid()
      modifies this, set t | t in towers
      ensures Model() == Click(old(Model()), blockCount, old(HitsAt(px, py)))
      ensures Valid()
    {
      ghost var g := Model();
      ghost var hits := HitsAt(px, py);
      match currentState {
        case Playing =>
          TowerPhase(px, py);
          ghost var afterTowers := Model();
          CheckWin();
          ghost var afterWin := Model();
          assert restartBounds.InBounds(px, py) == hits.restart;
          CheckRestart(px, py);
          ghost var afterRestart := Model();
          assert afterRestart == if hits.restart then Restarted(|g.stacks|, blockCount) else afterWin;
          assert undoBounds.InBounds(px, py) == hits.undo;
          CheckUndo(px, py);
          assert Model() == UndoCheck(afterRestart, blockCount, hits.undo);
        case Finished =>
          CheckRestart(px, py);
      }
    }
  }
}
