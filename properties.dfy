/** What the rules promise, stated over every well-formed game. */
module GameProperties {
  import opened Wrappers
  import opened Towers
  import opened Rules

  /** Conservation and stacking order: every reachable game holds all n blocks, each tower in order. */
  lemma Invariants(g: Game, n: nat)
    requires Wf(g, n)
    ensures Total(g.stacks) == n
    ensures forall j :: 0 <= j < |g.stacks| ==> Decreasing(g.stacks[j])
  {
    ReplayInvariant(|g.stacks|, g.history, n);
  }

  /** With nothing selected, a hit tower is selected exactly when it holds a block; contents never change. */
  lemma SelectRule(g: Game, n: nat, i: nat)
    requires Wf(g, n) && i < |g.stacks| && g.selectedTower == NoTower
    ensures var r := TowerStep(g, n, Some(i));
      r.stacks == g.stacks && r.history == g.history && r.state == g.state
      && (r.selectedTower == i <==> g.stacks[i] != [])
      && (g.stacks[i] == [] ==> r == g)
      && (forall j :: 0 <= j < |r.flags| ==> (r.flags[j] <==> j == i && g.stacks[i] != []))
  {
  }

  /** Clicking the selected tower again deselects it and leaves every tower as it was. */
  lemma DeselectRule(g: Game, n: nat, i: nat)
    requires Wf(g, n) && i < |g.stacks| && g.selectedTower == i
    ensures var r := TowerStep(g, n, Some(i));
      r.stacks == g.stacks && r.history == g.history && r.state == g.state
      && r.selectedTower == NoTower && forall j :: 0 <= j < |r.flags| ==> !r.flags[j]
  {
  }

  /**
   * With tower s selected, clicking another tower d moves the top of s onto d
   * exactly when d is empty or its top block is larger, records Move(s, d),
   * and clears the selection whether or not the block moved.
   */
  lemma MoveRule(g: Game, n: nat, d: nat)
    requires Wf(g, n) && d < |g.stacks| && g.selectedTower != NoTower && g.selectedTower != d
    ensures var s := g.selectedTower;
      var r := TowerStep(g, n, Some(d));
      var legal := g.stacks[d] == [] || Top(g.stacks[s]).value < Top(g.stacks[d]).value;
      r.selectedTower == NoTower && (forall j :: 0 <= j < |r.flags| ==> !r.flags[j]) && r.state == g.state
      && (legal ==>
            r.history == g.history + [Move(s, d)]
            && r.stacks[d] == g.stacks[d] + [Top(g.stacks[s]).value]
            && r.stacks[s] + [Top(g.stacks[s]).value] == g.stacks[s]
            && forall j :: 0 <= j < |g.stacks| && j != s && j != d ==> r.stacks[j] == g.stacks[j])
      && (!legal ==> r.stacks == g.stacks && r.history == g.history)
  {
    var s: nat := g.selectedTower;
    var r := TowerStep(g, n, Some(d));
    var deselected := g.(flags := g.flags[s := false], selectedTower := NoTower);
    Invariants(g, n);
    if g.stacks[d] == [] || Top(g.stacks[s]).value < Top(g.stacks[d]).value {
      assert r == deselected.(stacks := Transfer(g.stacks, s, d, n), history := g.history + [Move(s, d)]);
      TransferEffect(g.stacks, s, d, n);
    } else {
      assert r == deselected;
    }
  }

  /**
   * Undo with history: the selection is cleared, the last move Move(f, t) is
   * popped, and the top of t goes back onto f; every other tower is untouched,
   * and the towers are those the shortened history leads to.
   */
  lemma UndoRule(g: Game, n: nat)
    requires Wf(g, n) && g.history != []
    ensures var m := g.history[|g.history| - 1];
      var r := UndoCheck(g, n, true);
      r.history == g.history[..|g.history| - 1]
      && r.selectedTower == NoTower && (forall j :: 0 <= j < |r.flags| ==> !r.flags[j])
      && r.state == g.state
      && m.from < |g.stacks| && m.to < |g.stacks| && g.stacks[m.to] != []
      && r.stacks[m.from] == g.stacks[m.from] + [Top(g.stacks[m.to]).value]
      && r.stacks[m.to] + [Top(g.stacks[m.to]).value] == g.stacks[m.to]
      && (forall j :: 0 <= j < |g.stacks| && j != m.from && j != m.to ==> r.stacks[j] == g.stacks[j])
      && Replay(InitialStacks(|g.stacks|, n), r.history, n) == Some(r.stacks)
  {
    var m := g.history[|g.history| - 1];
    UndoLast(|g.stacks|, g.history, n);
    Invariants(g, n);
    RoomWhileOtherNonEmpty(g.stacks, m.to, m.from, n);
  }

  /** Undo is skipped entirely when its button is not hit or there is no history. */
  lemma UndoSkipped(g: Game, n: nat, hitUndo: bool)
    requires Wf(g, n) && (!hitUndo || g.history == [])
    ensures UndoCheck(g, n, hitUndo) == g
  {
  }

  /** A legal move followed by undo gives back the towers and the history from before the move. */
  lemma MoveThenUndo(g: Game, n: nat, d: nat)
    requires Wf(g, n) && d < |g.stacks| && g.selectedTower != NoTower && g.selectedTower != d
    requires g.stacks[d] == [] || Top(g.stacks[g.selectedTower]).value < Top(g.stacks[d]).value
    ensures var r := UndoCheck(TowerStep(g, n, Some(d)), n, true);
      r.stacks == g.stacks && r.history == g.history && r.selectedTower == NoTower
  {
    var moved := TowerStep(g, n, Some(d));
    assert moved.history == g.history + [Move(g.selectedTower, d)];
    UndoLast(|g.stacks|, moved.history, n);
    assert moved.history[..|moved.history| - 1] == g.history;
  }

  /** In Playing, the win check ends the game exactly when the last tower holds all n blocks. */
  lemma WinRule(g: Game, n: nat)
    requires Wf(g, n) && g.state == Playing
    ensures var r := WinCheck(g, n);
      (r.state == Finished <==> |g.stacks[|g.stacks| - 1]| == n)
      && r.stacks == g.stacks && r.history == g.history && r.selectedTower == g.selectedTower
  {
  }

  /** Once Finished, a click that misses the restart button changes nothing. */
  lemma FinishedIgnoresClicks(g: Game, n: nat, hits: Hits)
    requires Wf(g, n) && |hits.towers| == |g.stacks|
    requires g.state == Finished && !hits.restart
    ensures Click(g, n, hits) == g
  {
  }

  /** A click on the restart button ends in a fresh game, whatever else the click did. */
  lemma RestartOverrides(g: Game, n: nat, hits: Hits)
    requires Wf(g, n) && |hits.towers| == |g.stacks|
    requires hits.restart
    ensures Click(g, n, hits) == Restarted(|g.stacks|, n)
  {
  }

  /** A click that hits no region at all, while Playing, can only run the win check. */
  lemma MissedClick(g: Game, n: nat, hits: Hits)
    requires Wf(g, n) && |hits.towers| == |g.stacks| && g.state == Playing
    requires !hits.restart && !hits.undo && forall j :: 0 <= j < |hits.towers| ==> !hits.towers[j]
    ensures Click(g, n, hits) == WinCheck(g, n)
  {
    assert FirstHit(hits.towers) == None;
  }

  // ---------------------------------------------------------------------
  // Finished means solved, when the undo button overlaps no tower
  // ---------------------------------------------------------------------

  /** Whether replaying h from the start leaves the last of towerCount towers holding all n blocks. */
  predicate CompleteAfter(towerCount: nat, h: seq<Move>, n: nat)
  {
    match Replay(InitialStacks(towerCount, n), h, n)
    case None => false
    case Some(s) => |s| == towerCount >= 1 && |s[towerCount - 1]| == n
  }

  /**
   * The game is Finished exactly when the last tower holds all n blocks, and
   * no earlier point of the history had the last tower complete.
   */
  predicate WinConsistent(g: Game, n: nat)
    requires Wf(g, n)
  {
    (g.state == Finished <==> |g.stacks[|g.stacks| - 1]| == n)
    && forall k :: 0 <= k < |g.history| ==> !CompleteAfter(|g.stacks|, g.history[..k], n)
  }

  /** With at least two towers and one block, reset starts a consistent game: Playing, last tower empty. */
  lemma ResetConsistent(towerCount: nat, n: nat)
    requires towerCount >= 2 && n >= 1
    ensures WinConsistent(Restarted(towerCount, n), n)
  {
  }

  /** The tower stage and the win check of a click, while Playing, keep the game consistent. */
  lemma StepConsistent(g: Game, n: nat, hit: Option<nat>)
    requires Wf(g, n) && WinConsistent(g, n) && g.state == Playing
    requires hit.Some? ==> hit.value < |g.stacks|
    ensures WinConsistent(WinCheck(TowerStep(g, n, hit), n), n)
  {
    var a := TowerStep(g, n, hit);
    var h := g.history;
    if a.history != h {
      var s: nat := g.selectedTower;
      var m := Move(s, hit.value);
      assert a.history == h + [m];
      forall k | 0 <= k < |a.history|
        ensures !CompleteAfter(|a.stacks|, a.history[..k], n)
      {
        if k < |h| {
          assert a.history[..k] == h[..k];
        } else {
          assert a.history[..k] == h;
        }
      }
    }
  }

  /** A game reached while Playing, whose last tower is not full and whose history never completed it, is consistent. */
  lemma PlayingConsistent(g: Game, n: nat)
    requires Wf(g, n) && g.state == Playing && |g.stacks[|g.stacks| - 1]| != n
    requires forall k :: 0 <= k < |g.history| ==> !CompleteAfter(|g.stacks|, g.history[..k], n)
    ensures WinConsistent(g, n)
  {
  }

  /** Undo, while Playing, keeps the game consistent: it returns to a point of the history where the game was not won. */
  lemma UndoConsistent(g: Game, n: nat)
    requires Wf(g, n) && WinConsistent(g, n) && g.state == Playing && g.history != []
    ensures WinConsistent(UndoCheck(g, n, true), n)
  {
    var h := g.history;
    var p := h[..|h| - 1];
    UndoRule(g, n);
    var r := UndoCheck(g, n, true);
    assert r.history == p && r.state == Playing;
    assert !CompleteAfter(|g.stacks|, p, n);
    assert Replay(InitialStacks(|g.stacks|, n), p, n) == Some(r.stacks);
    forall k | 0 <= k < |p|
      ensures !CompleteAfter(|r.stacks|, p[..k], n)
    {
      assert p[..k] == h[..k];
    }
    PlayingConsistent(r, n);
  }

  /**
   * A click keeps the game consistent when a click on the undo button hits no
   * tower, as the button layout guarantees: a move can then never win and be
   * undone in the same click.
   */
  lemma ClickConsistent(g: Game, n: nat, hits: Hits)
    requires Wf(g, n) && WinConsistent(g, n) && |hits.towers| == |g.stacks| >= 2 && n >= 1
    requires hits.undo ==> forall j :: 0 <= j < |hits.towers| ==> !hits.towers[j]
    ensures WinConsistent(Click(g, n, hits), n)
  {
    ResetConsistent(|g.stacks|, n);
    if g.state == Playing {
      var hit := FirstHit(hits.towers);
      var won := WinCheck(TowerStep(g, n, hit), n);
      StepConsistent(g, n, hit);
      var afterRestart := if hits.restart then Restarted(|g.stacks|, n) else won;
      if hits.undo && |afterRestart.history| > 0 {
        assert hit == None && !hits.restart;
        assert won == g;
        UndoConsistent(g, n);
      } else {
        UndoSkipped(afterRestart, n, hits.undo);
      }
    }
  }
}
