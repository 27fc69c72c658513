# Tower of Hanoi — a verified model of the game's state machine

This project models the puzzle logic of the browser Tower of Hanoi game in
`TowerOfHanoi.js`. It covers:

- the towers and their capacity-guarded stacks (`Tower`);
- the hit-test rectangles (`BoundingBox`);
- the recorded moves (`Move`);
- the game object (`TowerOfHanoi`): its `reset` and the click handler that
  selects towers, moves blocks, detects the win, restarts and undoes.

The model has two layers.

- **Module `Rules`** describes the game as a value, `Game`. A `Game` holds the
  tower contents, the selected flags, the selected tower, the history and
  the state. `Click` is one click, built from the four stages in the
  source's order: tower step, win check, restart check, undo check.
- **Module `Hanoi`** has the class `TowerOfHanoi`, with the source's fields.
  Its methods change the towers in place. Each is proved to move the class's
  abstract view, `Model()`, exactly as the matching function of `Rules` says.

The central invariant is `Rules.Wf`. It says the current towers are the ones
the move history produces when it is replayed from the start position. Three
things follow from it:

- the block count is conserved;
- every tower stays ordered;
- undo is the exact inverse of the last move.

Files:

- `wrappers.dfy`: `Option`.
- `geometry.dfy`: `BoundingBox`.
- `tower.dfy`: the stack functions and the class `Tower`.
- `rules.dfy`: the rules as functions.
- `properties.dfy`: what the rules promise, for every well-formed game.
- `scenarios.dfy`: concrete games played click by click.
- `game.dfy`: the class `TowerOfHanoi`.

Modelling choices:

- A block is its id, an `int`. The block table holds block `i` at index `i`.
  Index 0 is never assigned, so in the source it is `undefined`. Here it is
  written as id 0 (`Hanoi.BlockTable`).
- `reset` offers `blocks[n]`, …, `blocks[1]` and then `blocks[0]` to tower 0.
  The last offer is refused by `addBlock`'s capacity guard, because tower 0
  is full by then. The model keeps that call, and `Reset` proves it changes
  nothing.
- Tower arrays are dense. A slot `blocks[i]` is `undefined` exactly when `i`
  is past the end. So `addBlock`'s scan of the first `totalBlocks` slots
  appends exactly when the tower is not full. `AddBlock` keeps that loop.
- The click point is a pair of reals. `HitsAt` takes one snapshot of which
  regions contain it, and every check in the click reads that snapshot. A
  click can move regions: the restart check calls `reset`, `reset` calls
  `resize`, and `resize` calls `updateBounds` on every box. The only check
  after the restart check is the undo check, and it needs a non-empty move
  history. `reset` has just emptied the history, so the undo check does
  nothing whatever the boxes are. The snapshot therefore gives the same
  result as re-reading the boxes.
- `selectedTower` is `-1` (`NoTower`) or a tower index, as in the source.

Two behaviours of the code are worth stating outright:

- **`addBlock` is guarded.** Pushing onto a full tower is silently ignored,
  and `reset` relies on this for the `undefined` entry. The model keeps the
  guard (`Towers.Pushed`). `Rules.RoomWhileOtherNonEmpty` shows that the
  guard never refuses a legal move.
- **`Finished` means the last tower is full, under two conditions.** The
  per-click rule is `GameProperties.WinRule`: the win check sets `Finished`
  exactly when the last tower holds every block. Whether that lasts depends
  on three things:
  - The number of towers. With one tower, the start position is already
    complete, yet the state is `Playing` until the first click.
  - The number of blocks. With no blocks, the empty last tower already holds
    every block, yet the state is `Playing` until the first click.
  - Where the buttons are. The win check runs before the undo check in the
    same click. So a click inside both the last tower and the undo button
    could win and then undo. That leaves `Finished` with the last tower not
    full (`Scenarios.WinAndUndoInOneClick`).

  The layout that `resize` computes never lets the undo button overlap a
  tower (`Geometry.UndoClearOfTowers`). With that layout, at least two
  towers and at least one block, the model proves an invariant,
  `GameProperties.WinConsistent`: the game is `Finished` exactly when the
  last tower holds every block. `GameProperties.ResetConsistent` shows that
  reset establishes it, and `GameProperties.ClickConsistent` shows that
  every click keeps it.

## Model

| member | source | states |
|---|---|---|
| Geometry.BoundingBox.constructor | TowerOfHanoi.js:452-463 | a new box has no position or size yet; it is modelled as the zero rectangle |
| Geometry.BoundingBox.UpdateBounds | TowerOfHanoi.js:472-477 | the box becomes exactly the given position and size |
| Geometry.BoundingBox.InBounds | TowerOfHanoi.js:460-463 | a hit needs a positive width and height; a point at or before the left or top edge, or at or past the right or bottom edge, is never a hit |
| Geometry.BoundaryIsOutside | TowerOfHanoi.js:460-463 | a point on an edge or corner is never a hit, because containment is strict |
| Geometry.InBoundsMeansStrictlyInside | TowerOfHanoi.js:460-463 | a hit is exactly a point strictly between the edges on both axes; a box with a hit has positive width and height |
| Geometry.NewBoxHitsNothing | TowerOfHanoi.js:460-463 | a box with no area, such as one not yet laid out, contains no point |
| Geometry.CentreIsInside | TowerOfHanoi.js:460-477 | the centre of a box with positive size is a hit |
| Geometry.UndoClearOfTowers | TowerOfHanoi.js:153-179 | with the scale resize computes from the canvas size, no point lies both in a tower's box and in the undo button's box |
| Towers.PushedTop | TowerOfHanoi.js:377-384 | while there is room, addBlock makes the block the new top and removeTop undoes it; on a full tower addBlock changes nothing |
| Towers.PoppedTop | TowerOfHanoi.js:390-408 | removeTop removes exactly the block getTopBlock reports; on an empty tower getTopBlock is none and removeTop does nothing |
| Towers.LegalMeansSmallest | TowerOfHanoi.js:241-244 | on an ordered tower, a block may be placed exactly when it is smaller than every block already there, so always on an empty tower |
| Towers.LegalPushKeepsOrder | TowerOfHanoi.js:243-246 | placing a block on an empty tower or on a larger top keeps ids strictly decreasing from bottom to top |
| Towers.PopKeepsOrder | TowerOfHanoi.js:404-408 | removing the top keeps the tower ordered |
| Towers.Tower.constructor | TowerOfHanoi.js:320-325 | a new tower is empty and unselected, with the given capacity and its own new box |
| Towers.Tower.AddBlock | TowerOfHanoi.js:377-384 | the slot scan appends the block exactly when the tower holds fewer than totalBlocks blocks; the selection is untouched |
| Towers.Tower.GetTopBlock | TowerOfHanoi.js:390-399 | none exactly for an empty tower, otherwise the last (topmost) block |
| Towers.Tower.RemoveTop | TowerOfHanoi.js:404-408 | the top block is dropped if there is one |
| Towers.Tower.Reset | TowerOfHanoi.js:413-416 | the tower is emptied and deselected |
| Hanoi.BlockTable | TowerOfHanoi.js:36-40 | entry i holds block i for 1 <= i <= n; entry 0 is the unassigned hole; there is no entry when n is 0 |
| Rules.Restarted | TowerOfHanoi.js:188-203 | after reset, tower 0 holds n, n-1, …, 1 bottom up, every other tower is empty, nothing is selected, the history is empty, the state is Playing, and the game is well formed |
| Rules.FirstHit | TowerOfHanoi.js:218-224 | the click goes to the lowest-indexed tower that contains it, or to none when no tower does |
| Rules.RoomWhileOtherNonEmpty | TowerOfHanoi.js:244-248 | with n blocks in all, the destination of a move is never full, so addBlock's guard never refuses a legal move |
| Rules.Transfer | TowerOfHanoi.js:244-248 | the number of towers is unchanged, the source tower loses exactly one block, and every tower other than the source and the destination is unchanged |
| Rules.TransferEffect | TowerOfHanoi.js:244-248 | a legal move puts the source's top on the destination and removes it from the source; other towers are unchanged; the total stays n and every tower stays ordered |
| Rules.ReplayInvariant | TowerOfHanoi.js:237-255 | every position reachable by legal moves from the start holds all n blocks, each tower in order |
| Rules.TransferBack | TowerOfHanoi.js:278-289 | carrying the moved block back restores every tower exactly |
| Rules.UndoLast | TowerOfHanoi.js:278-289 | the last recorded move can be reversed, and reversing it gives exactly the towers the shortened history leads to |
| Rules.TowerStep | TowerOfHanoi.js:218-258 | the tower stage of a click keeps the game well formed: history replay, selection consistent with the flags |
| Rules.WinCheck | TowerOfHanoi.js:260-263 | the win check keeps the game well formed |
| Rules.UndoCheck | TowerOfHanoi.js:271-290 | the undo stage keeps the game well formed |
| Rules.Click | TowerOfHanoi.js:212-306 | a whole click keeps the game well formed and the number of towers fixed |
| GameProperties.Invariants | TowerOfHanoi.js:237-255 | in every well-formed game the towers hold n blocks together and each is strictly decreasing |
| GameProperties.SelectRule | TowerOfHanoi.js:226-232 | with nothing selected, a hit tower becomes selected (flag and index) exactly when it holds a block; towers, history and state are unchanged |
| GameProperties.DeselectRule | TowerOfHanoi.js:233-236 | clicking the selected tower deselects it and changes nothing else |
| GameProperties.MoveRule | TowerOfHanoi.js:237-255 | the block moves exactly when the destination is empty or has a larger top; the move is then recorded and only the two towers change; otherwise nothing changes; the selection is cleared either way |
| GameProperties.UndoRule | TowerOfHanoi.js:271-290 | undo with history clears the selection, pops Move(f, t) and carries t's top back onto f; all other towers are untouched and the result matches the shortened history |
| GameProperties.UndoSkipped | TowerOfHanoi.js:271 | without an undo hit, or with an empty history, the undo stage changes nothing |
| GameProperties.MoveThenUndo | TowerOfHanoi.js:237-290 | a legal move followed by undo gives back the same towers and history, with nothing selected |
| GameProperties.WinRule | TowerOfHanoi.js:260-263 | while Playing, the win check sets Finished exactly when the last tower holds all n blocks, and changes nothing else |
| GameProperties.FinishedIgnoresClicks | TowerOfHanoi.js:294-301 | while Finished, a click that misses the restart button changes nothing |
| GameProperties.RestartOverrides | TowerOfHanoi.js:265-268 | a click on the restart button ends in the reset game, whatever the click did first and in either state |
| GameProperties.MissedClick | TowerOfHanoi.js:217-263 | while Playing, a click that hits no region only runs the win check |
| GameProperties.ResetConsistent | TowerOfHanoi.js:188-203 | with at least two towers and one block, the reset game is consistent: Playing, with the last tower not full and no history |
| GameProperties.StepConsistent | TowerOfHanoi.js:218-263 | while Playing, the tower stage and the win check keep the game consistent: Finished exactly when the last tower is full, and never complete at an earlier point of the history |
| GameProperties.UndoConsistent | TowerOfHanoi.js:271-290 | while Playing, undo returns to an earlier point of the history, where the last tower was not full, so the game stays consistent |
| GameProperties.ClickConsistent | TowerOfHanoi.js:212-306 | when a click on the undo button hits no tower, every click keeps the game consistent, so Finished holds exactly when the last tower holds all blocks |
| Scenarios.OnTowerHits | TowerOfHanoi.js:218-224 | a click inside only tower i goes to tower i |
| Scenarios.TowerClick | TowerOfHanoi.js:217-263 | while Playing, a click on tower i alone is the tower step on i followed by the win check |
| Scenarios.PickUpClick | TowerOfHanoi.js:226-232 | while Playing and not won, a click on a non-empty tower with nothing selected selects it and changes nothing else |
| Scenarios.DropClick | TowerOfHanoi.js:237-263 | with tower s selected, a click on d for a legal move moves the block, records Move(s, d), deselects s, and finishes the game exactly when the last tower becomes full |
| Scenarios.MoveClicks | TowerOfHanoi.js:218-263 | two clicks, on the source and then on the destination of a legal move, make the move, record it, leave nothing selected, and finish the game exactly when the last tower becomes full |
| Scenarios.RefusedClicks | TowerOfHanoi.js:237-255 | two clicks attempting an illegal move leave the game exactly as it was |
| Scenarios.RefusedDrop | TowerOfHanoi.js:237-263 | with tower s selected, a click on a tower with a smaller top only deselects s |
| Scenarios.UndoClick | TowerOfHanoi.js:270-290 | while Playing and not won, a click on the undo button alone is exactly the undo stage |
| Scenarios.ThreeBlockStart | TowerOfHanoi.js:188-203 | with three towers and three blocks the game starts as [3, 2, 1], [], [] |
| Scenarios.ThreeBlockFirstMove | TowerOfHanoi.js:237-251 | moving block 1 from tower 0 to tower 2 gives [3, 2], [], [1] with history [0→2] |
| Scenarios.ThreeBlockSecondMove | TowerOfHanoi.js:237-251 | then moving block 2 from tower 0 to tower 1 gives [3], [2], [1] |
| Scenarios.RefusedMoveThenUndo | TowerOfHanoi.js:237-290 | then dropping block 3 on block 1 is refused, and undo restores [3, 2], [], [1] with history [0→2] |
| Scenarios.ThreeBlockSession | TowerOfHanoi.js:212-306 | the whole session from the reset game: two moves, a refused move, an undo |
| Scenarios.TwoBlockFirstMove | TowerOfHanoi.js:237-251 | two blocks: 0→1 gives [2], [1], [] |
| Scenarios.TwoBlockSecondMove | TowerOfHanoi.js:237-251 | then 0→2 gives [], [1], [2] |
| Scenarios.TwoBlockLastMove | TowerOfHanoi.js:244-263 | then 1→2 gives [], [], [2, 1] and the game is Finished |
| Scenarios.TwoBlockWin | TowerOfHanoi.js:212-263 | from the reset game, the three moves win on the third and not before |
| Scenarios.WinAndUndoInOneClick | TowerOfHanoi.js:244-290 | a click inside both the last tower and the undo button can complete the last tower and undo that move; the game ends Finished with the block back on tower 0 |
| Hanoi.TowerOfHanoi.constructor | TowerOfHanoi.js:9-63 | creates distinct empty towers sized for blockCount blocks, each with its own new box, the block table and two new, distinct button boxes, then resets: the game is well formed and equals the reset game |
| Hanoi.TowerOfHanoi.Reset | TowerOfHanoi.js:188-207 | the game becomes exactly the reset game, including the refused offer of the undefined entry |
| Hanoi.TowerOfHanoi.FindTower | TowerOfHanoi.js:218-224 | the scan returns the first tower whose box contains the point, or none |
| Hanoi.TowerOfHanoi.TowerPhase | TowerOfHanoi.js:217-258 | the tower loop changes the game exactly as the tower stage of the rules does |
| Hanoi.TowerOfHanoi.SelectOrMove | TowerOfHanoi.js:226-255 | the action on the hit tower follows the tower stage of the rules and keeps the game well formed |
| Hanoi.TowerOfHanoi.Select | TowerOfHanoi.js:226-232 | with nothing selected, the hit tower is selected if it holds a block |
| Hanoi.TowerOfHanoi.Deselect | TowerOfHanoi.js:233-236 | the selected tower, clicked again, is deselected |
| Hanoi.TowerOfHanoi.TryMove | TowerOfHanoi.js:237-255 | the attempted move follows the rules: a legal move is made and recorded, and the selection is cleared either way |
| Hanoi.TowerOfHanoi.MoveIfLegal | TowerOfHanoi.js:239-251 | when the selected tower's top is smaller than the destination's top, or the destination is empty, the block is transferred and Move(s, i) is recorded; otherwise towers and history are unchanged; flags, selection and state are untouched |
| Hanoi.TowerOfHanoi.DropSelection | TowerOfHanoi.js:252-253 | the source tower of a move attempt is deselected and nothing is selected; towers, history and state are unchanged |
| Hanoi.TowerOfHanoi.Carry | TowerOfHanoi.js:244-248 | addBlock on the destination and then removeTop on the source together perform the transfer; no flag changes |
| Hanoi.TowerOfHanoi.Undo | TowerOfHanoi.js:271-290 | undo changes the game exactly as the undo stage of the rules does |
| Hanoi.TowerOfHanoi.ClearSelection | TowerOfHanoi.js:273-276 | the selected tower, if any, is deselected; towers, history and state are unchanged |
| Hanoi.TowerOfHanoi.TakeBack | TowerOfHanoi.js:278-289 | the last move is popped, and its destination's top goes back to its source |
| Hanoi.TowerOfHanoi.CheckWin | TowerOfHanoi.js:260-263 | the state becomes Finished when the last tower holds every block |
| Hanoi.TowerOfHanoi.CheckRestart | TowerOfHanoi.js:265-268 | a hit on the restart button resets the game; anything else changes nothing |
| Hanoi.TowerOfHanoi.CheckUndo | TowerOfHanoi.js:270-290 | a hit on the undo button with a non-empty history undoes the last move; anything else changes nothing |
| Hanoi.TowerOfHanoi.HandleClick | TowerOfHanoi.js:212-306 | a click changes the game exactly as `Click` does on the regions that contain the point, and keeps it well formed |

## Left out

- Drawing (`draw`, `Tower.draw`, `Block.draw`), the canvas, the DOM and the event listeners: these are presentation only. The redraw at the end of `handleClick` is left out too.
- `resize`: the layout arithmetic that places the boxes is presentation code on floating-point numbers. `reset` calls it, and the model leaves that call out. Its only effect on the logic is through `UpdateBounds`, which the model keeps, so the class's boxes are arbitrary. The one layout fact the model uses, that the undo button overlaps no tower, is proved over reals in `Geometry.UndoClearOfTowers` and taken as a hypothesis of `GameProperties.ClickConsistent`.
- Random block colours, `parseInt` of the constructor arguments, and `console.log`: none of them affects the game state. The block table holds ids, not `Block` objects.
- The getters of `BoundingBox` and `Move`, and `Tower.getBounds`: these are plain field reads, written as field accesses.
- Hanoi.TowerOfHanoi.constructor: requires at least one tower. With no towers and at least one block, the source fails in `reset` on `towers[0]` (line 202). With no towers and no blocks, construction succeeds, but the first click while Playing fails on `towers[-1]` (line 261), so such a game can never handle a click.
- Hanoi.TowerOfHanoi.HandleClick: the hit test reads one snapshot of all regions (`HitsAt`). The source re-reads the boxes, and a restart moves them through `resize`. But the only check after a restart is the undo check, which needs a history that `reset` has just emptied, so the snapshot gives the same outcome.
- Towers.Tower.GetTopBlock: the source scans down from index `length`. On a dense array that scan returns the last element, so the model states the result directly, without the loop.
- The `default` branches of `draw` and `handleClick` are unreachable, because the state is always Playing or Finished.
