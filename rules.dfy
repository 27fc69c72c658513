/**
 * The puzzle's rules as functions on a game value: what one click does to
 * the towers, the selection, the move history and the game state
 * (TowerOfHanoi.js, TowerOfHanoi.reset and TowerOfHanoi.handleClick, without
 * the drawing). The class in game.dfy is proved to follow these functions.
 */
module Rules {
  import opened Wrappers
  import opened Towers

  datatype GameState = Playing | Finished

  /** One completed relocation of a top block, by tower index. */
  datatype Move = Move(from: nat, to: nat)

  /** The value of selectedTower when no tower is picked up. */
  const NoTower: int := -1

  /**
   * The game as seen by the rules: the contents of each tower (bottom first),
   * each tower's selected flag, the selected tower index, the history and the state.
   */
  datatype Game = Game(stacks: seq<seq<int>>, flags: seq<bool>, selectedTower: int,
                       history: seq<Move>, state: GameState)

  /** Which regions contain the clicked point: each tower's, the restart button's, the undo button's. */
  datatype Hits = Hits(towers: seq<bool>, restart: bool, undo: bool)

  /** Block ids n, n-1, ..., 1: a full tower, largest block at the bottom. */
  function Descending(n: nat): seq<int>
  {
    seq(n, k => n - k)
  }

  /** All blocks on tower 0, every other tower empty. */
  function InitialStacks(towerCount: nat, n: nat): seq<seq<int>>
  {
    seq(towerCount, j => if j == 0 then Descending(n) else [])
  }

  /** The game right after reset: everything on tower 0, nothing selected, no history, Playing. */
  function Restarted(towerCount: nat, n: nat): (r: Game)
    ensures |r.stacks| == |r.flags| == towerCount
    ensures towerCount > 0 ==> |r.stacks[0]| == n && forall k :: 0 <= k < n ==> r.stacks[0][k] == n - k
    ensures forall j :: 1 <= j < towerCount ==> r.stacks[j] == []
    ensures forall j :: 0 <= j < towerCount ==> !r.flags[j]
    ensures r.selectedTower == NoTower && r.history == [] && r.state == Playing
    ensures towerCount >= 1 ==> Wf(r, n)
  {
    Game(InitialStacks(towerCount, n), seq(towerCount, _ => false), NoTower, [], Playing)
  }

  /** The number of blocks on all towers together. */
  function Total(stacks: seq<seq<int>>): nat
  {
    if stacks == [] then 0 else Total(stacks[..|stacks| - 1]) + |stacks[|stacks| - 1]|
  }

  /**
   * Adds the top block of src onto dst (through addBlock's capacity guard) and
   * removes it from src: the two calls a move makes, and undo makes in reverse.
   */
  function Transfer(stacks: seq<seq<int>>, src: nat, dst: nat, n: nat): (r: seq<seq<int>>)
    requires src < |stacks| && dst < |stacks| && src != dst && stacks[src] != []
    ensures |r| == |stacks| && |r[src]| == |stacks[src]| - 1
    ensures forall j :: 0 <= j < |stacks| && j != src && j != dst ==> r[j] == stacks[j]
  {
    var block := stacks[src][|stacks[src]| - 1];
    stacks[dst := Pushed(stacks[dst], block, n)][src := Popped(stacks[src])]
  }

  /** A move that handleClick would perform on these towers. */
  predicate LegalMove(stacks: seq<seq<int>>, m: Move)
  {
    m.from < |stacks| && m.to < |stacks| && m.from != m.to && stacks[m.from] != []
    && Legal(stacks[m.from][|stacks[m.from]| - 1], Top(stacks[m.to]))
  }

  /** Performs the moves of a history one after the other; None if one of them is not legal. */
  function Replay(start: seq<seq<int>>, history: seq<Move>, n: nat): Option<seq<seq<int>>>
    decreases |history|
  {
    if history == [] then Some(start)
    else
      match Replay(start, history[..|history| - 1], n)
      case None => None
      case Some(s) =>
        var m := history[|history| - 1];
        if LegalMove(s, m) then Some(Transfer(s, m.from, m.to, n)) else None
  }

  /**
   * The invariant of every reachable game with n blocks: at least one tower,
   * the towers are exactly what replaying the history from the start gives,
   * a selected tower is never empty, and exactly the selected tower has its flag set.
   */
  predicate Wf(g: Game, n: nat)
  {
    |g.stacks| >= 1 && |g.flags| == |g.stacks|
    && Replay(InitialStacks(|g.stacks|, n), g.history, n) == Some(g.stacks)
    && (g.selectedTower == NoTower || (0 <= g.selectedTower < |g.stacks| && g.stacks[g.selectedTower] != []))
    && (forall j :: 0 <= j < |g.flags| ==> (g.flags[j] <==> j == g.selectedTower))
  }

  /** The first tower, in index order, whose region contains the click. */
  function FirstHit(hits: seq<bool>): (r: Option<nat>)
    ensures r.Some? ==> r.value < |hits| && hits[r.value] && forall j :: 0 <= j < r.value ==> !hits[j]
    ensures r.None? ==> forall j :: 0 <= j < |hits| ==> !hits[j]
  {
    if hits == [] then None
    else if hits[0] then Some(0)
    else
      match FirstHit(hits[1..])
      case None => None
      case Some(k) => Some(k + 1)
  }

  // ---------------------------------------------------------------------
  // Facts about Total, Transfer and Replay
  // ---------------------------------------------------------------------

  lemma {:induction false} TotalUpdate(s: seq<seq<int>>, i: nat, v: seq<int>)
    requires i < |s|
    ensures Total(s[i := v]) == Total(s) - |s[i]| + |v|
    decreases |s|
  {
    var last := |s| - 1;
    if i < last {
      assert s[i := v][..last] == s[..last][i := v];
      TotalUpdate(s[..last], i, v);
    } else {
      assert s[i := v][..last] == s[..last];
    }
  }

  lemma {:induction false} TotalAtLeast(s: seq<seq<int>>, i: nat)
    requires i < |s|
    ensures |s[i]| <= Total(s)
    decreases |s|
  {
    if i < |s| - 1 {
      assert s[..|s| - 1][i] == s[i];
      TotalAtLeast(s[..|s| - 1], i);
    }
  }

  lemma {:induction false} TotalInitial(towerCount: nat, n: nat)
    requires towerCount >= 1
    ensures Total(InitialStacks(towerCount, n)) == n
  {
    var s := InitialStacks(towerCount, n);
    if towerCount == 1 {
      assert s[..0] == [];
    } else {
      assert s[..towerCount - 1] == InitialStacks(towerCount - 1, n);
      TotalInitial(towerCount - 1, n);
    }
  }

  /** With n blocks in all, a tower is never full while another tower holds a block. */
  lemma RoomWhileOtherNonEmpty(s: seq<seq<int>>, src: nat, dst: nat, n: nat)
    requires src < |s| && dst < |s| && src != dst && s[src] != []
    requires Total(s) == n
    ensures |s[dst]| < n && |s[src]| <= n
  {
    TotalUpdate(s, src, []);
    TotalAtLeast(s[src := []], dst);
    TotalAtLeast(s, src);
  }

  /** What a legal transfer does, and that it conserves the block count and the stacking order. */
  lemma TransferEffect(s: seq<seq<int>>, src: nat, dst: nat, n: nat)
    requires LegalMove(s, Move(src, dst))
    requires Total(s) == n
    requires forall j :: 0 <= j < |s| ==> Decreasing(s[j])
    ensures var t := Transfer(s, src, dst, n);
      |t| == |s| && Total(t) == n
      && t[dst] == s[dst] + [s[src][|s[src]| - 1]]
      && t[src] == s[src][..|s[src]| - 1]
      && (forall j :: 0 <= j < |s| && j != src && j != dst ==> t[j] == s[j])
      && (forall j :: 0 <= j < |t| ==> Decreasing(t[j]))
  {
    RoomWhileOtherNonEmpty(s, src, dst, n);
    var block := s[src][|s[src]| - 1];
    var mid := s[dst := Pushed(s[dst], block, n)];
    TotalUpdate(s, dst, Pushed(s[dst], block, n));
    TotalUpdate(mid, src, Popped(s[src]));
    LegalPushKeepsOrder(s[dst], block, n);
    PopKeepsOrder(s[src]);
  }

  lemma ReplayExtend(start: seq<seq<int>>, history: seq<Move>, m: Move, n: nat)
    requires Replay(start, history, n).Some?
    requires LegalMove(Replay(start, history, n).value, m)
    ensures Replay(start, history + [m], n) == Some(Transfer(Replay(start, history, n).value, m.from, m.to, n))
  {
    assert (history + [m])[..|history|] == history;
  }

  /** Every state a history reaches from the start has n blocks in all, each tower in order. */
  lemma {:induction false} ReplayInvariant(towerCount: nat, history: seq<Move>, n: nat)
    requires towerCount >= 1
    requires Replay(InitialStacks(towerCount, n), history, n).Some?
    ensures var s := Replay(InitialStacks(towerCount, n), history, n).value;
      |s| == towerCount && Total(s) == n && forall j :: 0 <= j < |s| ==> Decreasing(s[j])
    decreases |history|
  {
    if history == [] {
      TotalInitial(towerCount, n);
    } else {
      var prefix := history[..|history| - 1];
      ReplayInvariant(towerCount, prefix, n);
      var p := Replay(InitialStacks(towerCount, n), prefix, n).value;
      var m := history[|history| - 1];
      TransferEffect(p, m.from, m.to, n);
    }
  }

  /** Carrying the moved block back restores both towers: a transfer and its reverse cancel out. */
  lemma TransferBack(p: seq<seq<int>>, src: nat, dst: nat, n: nat)
    requires LegalMove(p, Move(src, dst))
    requires Total(p) == n
    ensures var s := Transfer(p, src, dst, n);
      s[dst] != [] && Transfer(s, dst, src, n) == p
  {
    RoomWhileOtherNonEmpty(p, src, dst, n);
    var b := p[src][|p[src]| - 1];
    var rest := p[src][..|p[src]| - 1];
    assert p[src] == rest + [b];
    var s := p[dst := p[dst] + [b]][src := rest];
    assert Transfer(p, src, dst, n) == s;
    assert s[dst] == p[dst] + [b] && s[src] == rest;
    assert Pushed(rest, b, n) == p[src];
    assert Popped(p[dst] + [b]) == p[dst];
    var back := s[src := p[src]][dst := p[dst]];
    assert Transfer(s, dst, src, n) == back;
    assert back == p;
  }

  /**
   * Moving the top block of the last move's destination back onto its source
   * gives exactly the towers before that move.
   */
  lemma UndoLast(towerCount: nat, history: seq<Move>, n: nat)
    requires towerCount >= 1 && history != []
    requires Replay(InitialStacks(towerCount, n), history, n).Some?
    ensures var s := Replay(InitialStacks(towerCount, n), history, n).value;
      var m := history[|history| - 1];
      m.from < |s| && m.to < |s| && m.from != m.to && s[m.to] != []
      && Replay(InitialStacks(towerCount, n), history[..|history| - 1], n) == Some(Transfer(s, m.to, m.from, n))
  {
    var init := InitialStacks(towerCount, n);
    var prefix := history[..|history| - 1];
    ReplayInvariant(towerCount, prefix, n);
    var p := Replay(init, prefix, n).value;
    var m := history[|history| - 1];
    assert LegalMove(p, m);
    assert Replay(init, history, n) == Some(Transfer(p, m.from, m.to, n));
    TransferBack(p, m.from, m.to, n);
  }

  // ---------------------------------------------------------------------
  // The steps of one click
  // ---------------------------------------------------------------------

  /**
   * The tower step of a click (lines 218-258): nothing when no tower was hit;
   * otherwise select, deselect, or attempt a move from the selected tower.
   */
  function TowerStep(g: Game, n: nat, hit: Option<nat>): (r: Game)
    requires Wf(g, n)
    requires hit.Some? ==> hit.value < |g.stacks|
    ensures Wf(r, n) && |r.stacks| == |g.stacks|
  {
    match hit
    case None => g
    case Some(i) =>
      if g.selectedTower == NoTower then
        if |g.stacks[i]| > 0 then g.(flags := g.flags[i := true], selectedTower := i) else g
      else if g.selectedTower == i then
        g.(flags := g.flags[i := false], selectedTower := NoTower)
      else
        var s: nat := g.selectedTower;
        var moveBlock := Top(g.stacks[s]).value;
        var deselected := g.(flags := g.flags[s := false], selectedTower := NoTower);
        if Legal(moveBlock, Top(g.stacks[i])) then
          ReplayExtend(InitialStacks(|g.stacks|, n), g.history, Move(s, i), n);
          deselected.(stacks := Transfer(g.stacks, s, i, n), history := g.history + [Move(s, i)])
        else
          deselected
  }

  /** The win check (lines 261-263): Finished once the last tower holds every block. */
  function WinCheck(g: Game, n: nat): (r: Game)
    requires Wf(g, n)
    ensures Wf(r, n) && |r.stacks| == |g.stacks|
  {
    if |g.stacks[|g.stacks| - 1]| == n then g.(state := Finished) else g
  }

  /**
   * The undo step (lines 271-290): when the button is hit and there is history,
   * clear the selection, pop the last move and carry the destination's top block
   * back to the source.
   */
  function UndoCheck(g: Game, n: nat, hitUndo: bool): (r: Game)
    requires Wf(g, n)
    ensures Wf(r, n) && |r.stacks| == |g.stacks|
  {
    if hitUndo && |g.history| > 0 then
      var cleared :=
        if g.selectedTower != NoTower
        then g.(flags := g.flags[g.selectedTower := false], selectedTower := NoTower)
        else g;
      var last := g.history[|g.history| - 1];
      UndoLast(|g.stacks|, g.history, n);
      cleared.(stacks := Transfer(g.stacks, last.to, last.from, n), history := g.history[..|g.history| - 1])
    else
      g
  }

  /**
   * One click (lines 212-309). While Playing the tower step, the win check, the
   * restart check and the undo check run one after the other on the same point;
   * while Finished only the restart check runs.
   */
  function Click(g: Game, n: nat, hits: Hits): (r: Game)
    requires Wf(g, n)
    requires |hits.towers| == |g.stacks|
    ensures Wf(r, n) && |r.stacks| == |g.stacks|
  {
    match g.state
    case Playing =>
      var afterTowers := TowerStep(g, n, FirstHit(hits.towers));
      var afterWin := WinCheck(afterTowers, n);
      var afterRestart := if hits.restart then Restarted(|g.stacks|, n) else afterWin;
      UndoCheck(afterRestart, n, hits.undo)
    case Finished =>
      if hits.restart then Restarted(|g.stacks|, n) else g
  }
}
