/**
 * Concrete games played click by click with the rules of module Rules: a
 * three-block session with two moves, a refused move and an undo; a two-block
 * game won in three moves; and a click that both wins and undoes.
 */
module Scenarios {
  import opened Wrappers
  import opened Towers
  import opened Rules

  /** A click, among k towers, that lands on tower i only and on no button. */
  function OnTower(k: nat, i: nat): Hits
  {
    Hits(seq(k, j => j == i), false, false)
  }

  /** A click, among k towers, that lands on the undo button only. */
  function OnUndo(k: nat): Hits
  {
    Hits(seq(k, j => false), false, true)
  }

  /** Such a click goes to tower i. */
  lemma OnTowerHits(k: nat, i: nat)
    requires i < k
    ensures FirstHit(OnTower(k, i).towers) == Some(i)
  {
    var hits := OnTower(k, i).towers;
    assert hits[i];
    assert forall j :: 0 <= j < k && j != i ==> !hits[j];
  }

  /** While Playing, a click on tower i only is the tower step on i followed by the win check. */
  lemma TowerClick(g: Game, n: nat, i: nat)
    requires Wf(g, n) && g.state == Playing && i < |g.stacks|
    ensures Click(g, n, OnTower(|g.stacks|, i)) == WinCheck(TowerStep(g, n, Some(i)), n)
  {
    OnTowerHits(|g.stacks|, i);
  }

  /** Clicking a non-empty tower while nothing is selected and the game is not won picks it up. */
  lemma PickUpClick(g: Game, n: nat, s: nat)
    requires Wf(g, n) && g.state == Playing && g.selectedTower == NoTower
    requires s < |g.stacks| && g.stacks[s] != [] && |g.stacks[|g.stacks| - 1]| != n
    ensures Click(g, n, OnTower(|g.stacks|, s)) == g.(flags := g.flags[s := true], selectedTower := s)
  {
    TowerClick(g, n, s);
    var g1 := g.(flags := g.flags[s := true], selectedTower := s);
    assert TowerStep(g, n, Some(s)) == g1;
    assert WinCheck(g1, n) == g1;
  }

  /**
   * With tower s selected, clicking tower d when the move is legal moves the
   * block, records the move, puts s down, and ends the game exactly when the
   * last tower is then full.
   */
  lemma DropClick(g: Game, n: nat, s: nat, d: nat)
    requires Wf(g, n) && g.state == Playing && g.selectedTower == s
    requires LegalMove(g.stacks, Move(s, d))
    ensures var t := Transfer(g.stacks, s, d, n);
      Click(g, n, OnTower(|g.stacks|, d))
        == g.(stacks := t, flags := g.flags[s := false], selectedTower := NoTower, history := g.history + [Move(s, d)],
              state := if |t[|t| - 1]| == n then Finished else Playing)
  {
    TowerClick(g, n, d);
    var t := Transfer(g.stacks, s, d, n);
    var moved := g.(stacks := t, flags := g.flags[s := false], selectedTower := NoTower, history := g.history + [Move(s, d)]);
    assert TowerStep(g, n, Some(d)) == moved;
    assert WinCheck(moved, n) == moved.(state := if |t[|t| - 1]| == n then Finished else Playing);
  }

  /**
   * Picking up the top of tower s and dropping it on tower d, when the move is
   * legal: the block moves, the move is recorded, nothing stays selected, and
   * the game is over exactly when the last tower is then full.
   */
  lemma MoveClicks(g: Game, n: nat, s: nat, d: nat)
    requires Wf(g, n) && g.state == Playing && g.selectedTower == NoTower
    requires LegalMove(g.stacks, Move(s, d)) && |g.stacks[|g.stacks| - 1]| != n
    ensures var t := Transfer(g.stacks, s, d, n);
      var r := Click(Click(g, n, OnTower(|g.stacks|, s)), n, OnTower(|g.stacks|, d));
      r == g.(stacks := t, history := g.history + [Move(s, d)],
               state := if |t[|t| - 1]| == n then Finished else Playing)
  {
    PickUpClick(g, n, s);
    var g1 := g.(flags := g.flags[s := true], selectedTower := s);
    DropClick(g1, n, s, d);
    assert g.flags[s := true][s := false] == g.flags;
  }

  /**
   * Picking up the top of tower s and dropping it on a tower whose top is
   * smaller: the click is refused and the game is as before.
   */
  lemma RefusedClicks(g: Game, n: nat, s: nat, d: nat)
    requires Wf(g, n) && g.state == Playing && g.selectedTower == NoTower
    requires s < |g.stacks| && d < |g.stacks| && s != d && g.stacks[s] != []
    requires !Legal(Top(g.stacks[s]).value, Top(g.stacks[d])) && |g.stacks[|g.stacks| - 1]| != n
    ensures Click(Click(g, n, OnTower(|g.stacks|, s)), n, OnTower(|g.stacks|, d)) == g
  {
    PickUpClick(g, n, s);
    var g1 := g.(flags := g.flags[s := true], selectedTower := s);
    RefusedDrop(g1, n, s, d);
    assert g.flags[s := true][s := false] == g.flags;
  }

  /**
   * With tower s selected, clicking tower d whose top is smaller only puts s
   * down, and the game was not won before, so it is not won after.
   */
  lemma RefusedDrop(g: Game, n: nat, s: nat, d: nat)
    requires Wf(g, n) && g.state == Playing && g.selectedTower == s
    requires s < |g.stacks| && d < |g.stacks| && s != d && g.stacks[s] != []
    requires !Legal(Top(g.stacks[s]).value, Top(g.stacks[d])) && |g.stacks[|g.stacks| - 1]| != n
    ensures Click(g, n, OnTower(|g.stacks|, d)) == g.(flags := g.flags[s := false], selectedTower := NoTower)
  {
    TowerClick(g, n, d);
    var put := g.(flags := g.flags[s := false], selectedTower := NoTower);
    assert TowerStep(g, n, Some(d)) == put;
    assert WinCheck(put, n) == put;
  }

  /** A click on the undo button alone, while Playing and not won, is exactly the undo step. */
  lemma UndoClick(g: Game, n: nat)
    requires Wf(g, n) && g.state == Playing && |g.stacks[|g.stacks| - 1]| != n
    ensures Click(g, n, OnUndo(|g.stacks|)) == UndoCheck(g, n, true)
  {
    var hits := OnUndo(|g.stacks|);
    assert FirstHit(hits.towers) == None;
    assert TowerStep(g, n, None) == g;
    assert WinCheck(g, n) == g;
  }

  /** The start of the three-block game: all blocks on tower 0, largest at the bottom. */
  lemma ThreeBlockStart()
    ensures Restarted(3, 3) == Game([[3, 2, 1], [], []], [false, false, false], NoTower, [], Playing)
  {
    assert Descending(3) == [3, 2, 1];
  }

  /** Three towers, three blocks: block 1 goes from tower 0 to tower 2. */
  lemma ThreeBlockFirstMove(g: Game)
    requires g == Game([[3, 2, 1], [], []], [false, false, false], NoTower, [], Playing) && Wf(g, 3)
    ensures Click(Click(g, 3, OnTower(3, 0)), 3, OnTower(3, 2))
      == Game([[3, 2], [], [1]], [false, false, false], NoTower, [Move(0, 2)], Playing)
  {
    assert Popped([3, 2, 1]) == [3, 2] && Pushed([], 1, 3) == [1];
    assert Transfer(g.stacks, 0, 2, 3) == [[3, 2], [], [1]];
    MoveClicks(g, 3, 0, 2);
  }

  /** Then block 2 goes from tower 0 to tower 1. */
  lemma ThreeBlockSecondMove(g: Game)
    requires g == Game([[3, 2], [], [1]], [false, false, false], NoTower, [Move(0, 2)], Playing) && Wf(g, 3)
    ensures Click(Click(g, 3, OnTower(3, 0)), 3, OnTower(3, 1))
      == Game([[3], [2], [1]], [false, false, false], NoTower, [Move(0, 2), Move(0, 1)], Playing)
  {
    assert Popped([3, 2]) == [3] && Pushed([], 2, 3) == [2];
    assert Transfer(g.stacks, 0, 1, 3) == [[3], [2], [1]];
    MoveClicks(g, 3, 0, 1);
  }

  /**
   * From towers [3], [2], [1]: dropping block 3 on block 1 is refused; undo
   * then takes back the move 0 -> 1.
   */
  lemma RefusedMoveThenUndo(g: Game)
    requires g == Game([[3], [2], [1]], [false, false, false], NoTower, [Move(0, 2), Move(0, 1)], Playing)
    requires Wf(g, 3)
    ensures var g6 := Click(Click(g, 3, OnTower(3, 0)), 3, OnTower(3, 2));
      g6 == g
      && Click(g6, 3, OnUndo(3)) == Game([[3, 2], [], [1]], [false, false, false], NoTower, [Move(0, 2)], Playing)
  {
    RefusedClicks(g, 3, 0, 2);
    UndoClick(g, 3);
    assert g.history[..1] == [Move(0, 2)];
    assert Popped([2]) == [] && Pushed([3], 2, 3) == [3, 2];
    assert Transfer(g.stacks, 1, 0, 3) == [[3, 2], [], [1]];
  }

  /** The whole three-block session: two moves, a refused move, an undo. */
  lemma ThreeBlockSession()
    ensures var g4 := Click(Click(Click(Click(Restarted(3, 3), 3, OnTower(3, 0)), 3, OnTower(3, 2)), 3, OnTower(3, 0)), 3, OnTower(3, 1));
      var g7 := Click(Click(Click(g4, 3, OnTower(3, 0)), 3, OnTower(3, 2)), 3, OnUndo(3));
      g4.stacks == [[3], [2], [1]] && g7.stacks == [[3, 2], [], [1]] && g7.history == [Move(0, 2)]
  {
    ThreeBlockStart();
    var g0 := Restarted(3, 3);
    ThreeBlockFirstMove(g0);
    var g2 := Click(Click(g0, 3, OnTower(3, 0)), 3, OnTower(3, 2));
    ThreeBlockSecondMove(g2);
    var g4 := Click(Click(g2, 3, OnTower(3, 0)), 3, OnTower(3, 1));
    RefusedMoveThenUndo(g4);
  }

  /** Two blocks, three towers: block 1 goes from tower 0 to tower 1. */
  lemma TwoBlockFirstMove(g: Game)
    requires g == Game([[2, 1], [], []], [false, false, false], NoTower, [], Playing) && Wf(g, 2)
    ensures Click(Click(g, 2, OnTower(3, 0)), 2, OnTower(3, 1))
      == Game([[2], [1], []], [false, false, false], NoTower, [Move(0, 1)], Playing)
  {
    assert Popped([2, 1]) == [2] && Pushed([], 1, 2) == [1];
    assert Transfer(g.stacks, 0, 1, 2) == [[2], [1], []];
    MoveClicks(g, 2, 0, 1);
  }

  /** Then block 2 goes from tower 0 to tower 2. */
  lemma TwoBlockSecondMove(g: Game)
    requires g == Game([[2], [1], []], [false, false, false], NoTower, [Move(0, 1)], Playing) && Wf(g, 2)
    ensures Click(Click(g, 2, OnTower(3, 0)), 2, OnTower(3, 2))
      == Game([[], [1], [2]], [false, false, false], NoTower, [Move(0, 1), Move(0, 2)], Playing)
  {
    assert Popped([2]) == [] && Pushed([], 2, 2) == [2];
    assert Transfer(g.stacks, 0, 2, 2) == [[], [1], [2]];
    MoveClicks(g, 2, 0, 2);
  }

  /** Then block 1 goes from tower 1 onto block 2, completing the last tower: the game is won. */
  lemma TwoBlockLastMove(g: Game)
    requires g == Game([[], [1], [2]], [false, false, false], NoTower, [Move(0, 1), Move(0, 2)], Playing) && Wf(g, 2)
    ensures Click(Click(g, 2, OnTower(3, 1)), 2, OnTower(3, 2))
      == Game([[], [], [2, 1]], [false, false, false], NoTower, [Move(0, 1), Move(0, 2), Move(1, 2)], Finished)
  {
    assert Popped([1]) == [] && Pushed([2], 1, 2) == [2, 1];
    assert Transfer(g.stacks, 1, 2, 2) == [[], [], [2, 1]];
    MoveClicks(g, 2, 1, 2);
  }

  /** Two blocks are solved in three moves, 0 -> 1, 0 -> 2, 1 -> 2, and the third one wins. */
  lemma TwoBlockWin()
    ensures var g2 := Click(Click(Restarted(3, 2), 2, OnTower(3, 0)), 2, OnTower(3, 1));
      var g4 := Click(Click(g2, 2, OnTower(3, 0)), 2, OnTower(3, 2));
      var g6 := Click(Click(g4, 2, OnTower(3, 1)), 2, OnTower(3, 2));
      g2.state == Playing && g4.state == Playing && g6.state == Finished && g6.stacks == [[], [], [2, 1]]
  {
    var g0 := Restarted(3, 2);
    assert Descending(2) == [2, 1];
    assert g0 == Game([[2, 1], [], []], [false, false, false], NoTower, [], Playing);
    TwoBlockFirstMove(g0);
    var g2 := Click(Click(g0, 2, OnTower(3, 0)), 2, OnTower(3, 1));
    TwoBlockSecondMove(g2);
    var g4 := Click(Click(g2, 2, OnTower(3, 0)), 2, OnTower(3, 2));
    TwoBlockLastMove(g4);
  }

  /**
   * One block, two towers: when the undo button overlaps the last tower, the
   * click that completes the last tower also undoes that move, so the game
   * ends Finished with the block back on tower 0.
   */
  lemma WinAndUndoInOneClick()
    ensures var g1 := Click(Restarted(2, 1), 1, OnTower(2, 0));
      var r := Click(g1, 1, Hits([false, true], false, true));
      r == Game([[1], []], [false, false], NoTower, [], Finished)
  {
    var g0 := Restarted(2, 1);
    assert Descending(1) == [1];
    assert g0 == Game([[1], []], [false, false], NoTower, [], Playing);
    OnTowerHits(2, 0);
    var g1 := Click(g0, 1, OnTower(2, 0));
    assert g1 == g0.(flags := [true, false], selectedTower := 0);
    var hits := Hits([false, true], false, true);
    assert FirstHit(hits.towers) == Some(1);
    var moved := TowerStep(g1, 1, Some(1));
    assert Popped([1]) == [] && Pushed([], 1, 1) == [1];
    assert Transfer(g0.stacks, 0, 1, 1) == [[], [1]];
    assert moved == Game([[], [1]], [false, false], NoTower, [Move(0, 1)], Playing);
    var won := WinCheck(moved, 1);
    assert won.state == Finished;
    assert Popped([1]) == [] && Pushed([], 1, 1) == [1];
    assert Transfer(won.stacks, 1, 0, 1) == [[1], []];
  }
}
