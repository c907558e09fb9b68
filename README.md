# Klopfertetris engine core in Dafny

This project models the game logic of klopfertetris, a falling-block puzzle that is
drawn on a pygame window and on an LED matrix reached over a USB serial device. Six
source files make up the core:

- **`Game`** (`tetris_core.py`, module `CoreGame`): the self-contained tetromino engine.
  - Its 4x4 bitmaps are rotated with `rotate_cw`.
  - `rotate` tries seven kicks.
  - `lock_piece` clears lines and scores by itself.
  - `_spawn_from_bag` detects game over.
  - A drop timer and a lock timer run the gravity.
  - `add_garbage` pushes up rows made of `'X'`.
- **`RulesEngine`** (`rules/tetris_rules.py`, module `TetrisRules`): the tetromino rules engine.
  - It has precomputed rotation tables and SRS-style kick tables, with a separate table for "I".
  - A 7-piece bag feeds the pieces.
  - There is no game-over check.
- **`TritrisRules`** (`rules/tritris_rules.py`, module `Tritris`): the same interface for the 2- and 3-cell pieces I, L and D on a small board.
  - Its `fits` rejects rows above the top.
  - Its game-over flag is set at spawn and is sticky.
- **`InputState` / `TetrisSim`** (`sim/tetris_sim.py`, module `Sim`): the driver over a rules engine.
  - Held directions auto-repeat, with a DAS delay and an ARR rate.
  - A fall accumulator and a lock-delay timer drive gravity.
  - It provides soft and hard drop.
- **`build_frame_from_rules` / `frame_to_rgb`** (`gameplay.py`, module `Gameplay`): compose the board, the ghost, the current piece and the preview into one frame, then map its cells to colours.
- **The frame encoder of `USBFrameRenderer.render`** (`renderer/usb_frame.py`, module `UsbFrame`): one line of `RRGGBB` upper-case hex per frame, in row-major order, or nothing without a device.

Shared pieces live in their own modules:

- `Cells`: the board cell type, line clearing, and ASCII case mapping.
- `Bag`: shuffles and the block structure of the piece sequence.
- `Tetromino`: the 4x4 bitmaps, fit tests, first-fit kick search, the landing row, and stamping.

## How the model is built

**Boards and cells.** A board is a sequence of rows of `Cell`. `Empty` stands for the source's `0` (in `Game`) and `None` (in the rules engines). `Block(c)` is a one-character piece id.

**Mutable objects.** Every class whose fields the source updates is a Dafny class. Its mutable fields are grouped into one record `st`. Each method is specified by a function on that record, for example `ensures st == Locked(Cfg(), old(st), perm)`. The properties the source promises are then proved about those functions as lemmas. Loops of the source are loops here, with their invariants:

- the fit tests of `collides` and `fits`;
- the kick searches of `rotate` and `try_rotate`;
- the "drop while the next row fits" loops;
- the cell-writing loops of `lock_piece` and the `get_*` queries;
- the row filter of `clear_lines`;
- the buffer loops of `build_frame_from_rules` and `frame_to_rgb`;
- the encoding loops of `render`.

**Randomness.** Randomness is an input:

- every call that may shuffle the bag takes the shuffle it would use (`perm`, `p1`, `p2`), which must be a permutation of the piece ids;
- `add_garbage` takes the hole columns `randrange` would draw.

**Bag fairness.** Fairness is stated on the history of drawn ids. The ids drawn so far, followed by the bag in `pop` order, stay a concatenation of shuffles of the piece ids.

**Time.** Timers and delays are `real`, which is exact.

## Model

| member | source | states |
|---|---|---|
| Cells.EmptyRow | tetris_core.py:43 | a fresh row has exactly `w` cells, all empty |
| Cells.EmptyRows | rules/tetris_rules.py:56 | a fresh board is `k` rows of `w` empty cells |
| Cells.SurvivorsCount | tetris_core.py:156-157 | the surviving rows plus the full rows are all the rows, so the returned count is the number of full rows |
| Cells.SurvivorsAreGapRows | tetris_core.py:156 | a row survives exactly when it has an empty cell |
| Cells.SurvivorsKeepOrder | tetris_core.py:156 | the survivors are picked out of the board at strictly increasing row indices, so surviving rows keep their relative order, repeated rows included |
| Cells.SurvivorsOfBoard | tetris_core.py:156 | survivors are `w` wide and at most `h` in number |
| Cells.NoFullRows | tetris_core.py:157 | a board whose rows all have a gap has no full row |
| Cells.ClearedShape | tetris_core.py:155-161 | after clearing the board is still `w` x `h`; the survivors sit in order at the bottom, under as many empty rows as rows were cleared |
| Cells.ClearIdempotent | rules/tetris_rules.py:124-130 | a second clear finds no full row and changes nothing |
| Cells.AllGapsSurvive | rules/tritris_rules.py:104 | when every row has a gap, the filter keeps the board as it is |
| Cells.ClearFullRows | rules/tritris_rules.py:103-109 | the filter loop keeps exactly the rows with a gap, in order (`newb == Survivors(board[..i])` after `i` rows); the refill loop then tops the board up with empty rows; the result is the cleared board and the number of full rows |
| Cells.SurvivorsSnoc | tetris_core.py:156 | the comprehension visits rows one at a time: one more row joins the survivors exactly when it has an empty cell |
| Cells.Lower | rules/tetris_rules.py:154 | `lower()` maps an upper-case id to a lower-case letter whose upper case is the id, and leaves other characters alone |
| Cells.Upper | gameplay.py:41 | `upper()` maps a lower-case letter to an upper-case one and leaves other characters alone |
| Cells.UpperRoundTrip | gameplay.py:41 | `lower()` gives a lower-case letter back from its `upper()` |
| Bag.Rev | rules/tetris_rules.py:75 | the ids in `pop` order have the length of the bag, and the `i`-th id popped is the bag's `i`-th id from the end |
| Bag.PermBlocksElements | rules/tetris_rules.py:66-70 | every id drawn from refilled bags is a piece key |
| Bag.BlockIsShuffle | rules/tetris_rules.py:66-81 | each aligned block of 7 draws (block `k`) is a permutation of the keys |
| Bag.RefillKeepsBlocks | rules/tetris_rules.py:66-70 | refilling only an empty bag with a shuffle keeps "drawn ids, then the bag in pop order" a sequence of shuffles |
| Bag.PopKeepsBlocks | rules/tetris_rules.py:75 | `pop` moves the last id of the bag to the end of the drawn ids without changing that sequence |
| Bag.DrawKeepsBlocks | rules/tetris_rules.py:73-77 | a refill-then-pop draw keeps the sequence a concatenation of shuffles |
| Bag.ShuffleIsBlock | rules/tetris_rules.py:69-70 | one shuffle on its own is one block |
| Bag.SlidingWindowNotFair | rules/tetris_rules.py:66-81 | the draws are fair only per aligned block: a shuffle whose first and last ids differ, followed by its rotation that puts the last id first, is two whole blocks, yet the window of the same length starting at index 1 holds that id twice and is not a shuffle |
| Tetromino.RotateCw | tetris_core.py:30-32 | `rotate_cw` maps a 4x4 bitmap to a 4x4 bitmap |
| Tetromino.Base | tetris_core.py:8-16 | every base bitmap of the table is 4x4 |
| Tetromino.RotateCwKeepsCount | rules/tetris_rules.py:16-17 | a quarter turn keeps the number of filled cells |
| Tetromino.RotateCwFourTimes | rules/tetris_rules.py:16-17 | four quarter turns give back the original bitmap |
| Tetromino.BaseHasFourCells | rules/tetris_rules.py:6-14 | every base piece has exactly four cells |
| Tetromino.CheckMatrixFits | tetris_core.py:86-101 | the `collides` loop answers "no collision" exactly when no filled cell is outside the side walls, at or below the floor, or on a filled visible cell; rows above the top never collide |
| Tetromino.DropRow | tetris_core.py:208-213 | the landing row is at or below the start, the piece fits at every row down to it, and not one row further |
| Tetromino.DropLoop | rules/tetris_rules.py:146-148 | the ghost loop returns the landing row |
| Tetromino.FirstFittingKick | tetris_core.py:107-117 | the answer is the first kick, in list order, at which the shape fits, or none when none fits |
| Tetromino.FirstFitAt | rules/tetris_rules.py:104-109 | a fitting kick preceded only by non-fitting ones is the one the search answers |
| Tetromino.FirstFitNone | rules/tetris_rules.py:104-110 | when no kick from the starting index on fits, the search answers none, so the rotation leaves the state as it was |
| Tetromino.FindFirstKick | rules/tetris_rules.py:104-105 | the kick loop returns the first fitting kick |
| Tetromino.Stamped | tetris_core.py:141-147 | writing a piece keeps the board `w` x `h` |
| Tetromino.StampMatrix | rules/tetris_rules.py:113-120 | the writing loop computes the stamped board |
| Tetromino.StampKeepsBlocks | tetris_core.py:140-147 | writing a piece where it fits never overwrites a block already on the board |
| CoreGame.ScoreTable | tetris_core.py:163-168 | the score is 0 only for no rows; it never decreases with more rows; four or more rows give 1200 x (level + 1); all scores scale with level + 1 |
| CoreGame.GarbageRow | tetris_core.py:231-235 | a garbage row is `w` wide |
| CoreGame.GarbageRowHasOneHole | tetris_core.py:231-235 | a garbage row has exactly one empty cell, at the hole, and `'X'` elsewhere |
| CoreGame.GarbageRows | tetris_core.py:229-235 | the appended garbage rows form a `w` x n block |
| CoreGame.GarbageShape | tetris_core.py:228-235 | adding n garbage rows drops the n top rows, keeps the others in order, appends the garbage rows, and keeps the board `w` x `h` |
| CoreGame.GarbageStep | tetris_core.py:233-235 | one loop round is "drop the top row, append one garbage row" |
| CoreGame.Refilled | tetris_core.py:69-71 | refilling keeps ids in the bag and leaves it non-empty |
| CoreGame.Previewed | tetris_core.py:73-74 | after the preview draw there is a preview id |
| CoreGame.Filled | tetris_core.py:60-65 | `_fill_bag` leaves a preview id |
| CoreGame.Promoted | tetris_core.py:75-76 | the preview becomes the current id, a piece key |
| CoreGame.Placing | tetris_core.py:77-84 | placing keeps the running-game invariant |
| CoreGame.Spawned | tetris_core.py:67-84 | a spawn keeps the invariant and restarts the lock timer |
| CoreGame.Placed | tetris_core.py:141-147 | placing the piece keeps the board `w` x `h` |
| CoreGame.Scored | tetris_core.py:140-151 | the state before the spawn is ready for a spawn |
| CoreGame.Locked | tetris_core.py:140-153 | locking keeps the invariant and restarts the lock timer |
| CoreGame.HardDropped | tetris_core.py:134-138 | a hard drop keeps the invariant |
| CoreGame.Gravity | tetris_core.py:179-187 | a gravity step keeps the invariant |
| CoreGame.Updated | tetris_core.py:170-187 | `update` keeps the invariant |
| CoreGame.Moved | tetris_core.py:119-124 | `move` keeps the invariant |
| CoreGame.SoftDropped | tetris_core.py:126-132 | `soft_drop` keeps the invariant |
| CoreGame.RotatedWith | tetris_core.py:104-117 | a rotation with any kick list keeps the invariant |
| CoreGame.Rotated | tetris_core.py:104-117 | `rotate` keeps the invariant |
| CoreGame.Emptied | tetris_core.py:43-47 | the emptied state is ready for a spawn |
| CoreGame.Reseted | tetris_core.py:42-54 | `reset` establishes the invariant |
| CoreGame.SpawnFacts | tetris_core.py:67-84 | a spawn puts the bitmap of the new current id at column width//2 - 2, row -1, with a zero lock timer. The new id is the old preview when there was one. Game over is set exactly when it was already set or the piece collides. The preview is `None` only when the bag was emptied. Board, score and lines are untouched |
| CoreGame.ResetFacts | tetris_core.py:42-54 | `reset` forgets the old state: empty board, zero score and lines, current piece and preview dealt from the fresh shuffle, timers zeroed, and game over cleared even if the spawn collided |
| CoreGame.LockScores | tetris_core.py:140-153 | locking clears the full rows of the placed board, records their count, adds `score_for_clear` of it to the score and the count to the lines; the spawn keeps all four |
| CoreGame.LockClearsAtMostFour | tetris_core.py:148-151 | when no row was full before, a lock clears at most four rows, and on a board at least one column wide it leaves no full row |
| CoreGame.FullCountWindow | tetris_core.py:156-157 | only rows the piece touched can be full, so at most four are counted |
| CoreGame.HardDropLandsAtGhost | tetris_core.py:134-138 | `hard_drop` locks the piece exactly at the `get_ghost_y` row |
| CoreGame.GravityFalls | tetris_core.py:179-181 | when the row below fits, a gravity step moves the piece down one row and keeps everything else of the game |
| CoreGame.GravityWaits | tetris_core.py:182-185 | when blocked with lock time left, a gravity step keeps the piece where it is |
| CoreGame.UpdateSteps | tetris_core.py:170-187 | when `update` does not lock: on a finished game it changes nothing, and otherwise the piece moves down at most one row while board, score, bag, preview and piece stay |
| CoreGame.MoveUndo | tetris_core.py:119-124 | `move` changes only the column and the lock timer; a successful move is undone by the opposite move |
| CoreGame.SoftDropStep | tetris_core.py:126-132 | `soft_drop` moves down exactly one row iff that row fits, and otherwise changes nothing |
| CoreGame.RotateCommitsFirstFit | tetris_core.py:104-115 | `rotate` commits the turned bitmap at the first fitting kick, in list order, with a zero lock timer |
| CoreGame.RotateFailsUnchanged | tetris_core.py:116-117 | when no kick fits, `rotate` changes nothing |
| CoreGame.FillKeepsFair | tetris_core.py:60-65 | `_fill_bag` keeps the drawn ids a concatenation of shuffles |
| CoreGame.PromoteKeepsFair | tetris_core.py:75-76 | the preview pop keeps the drawn ids a concatenation of shuffles |
| CoreGame.SpawnKeepsFair | tetris_core.py:67-76 | a spawn keeps the drawn ids a concatenation of shuffles |
| CoreGame.DealtShuffleFair | tetris_core.py:60-76 | the two ids dealt from a fresh shuffle, followed by its rest in `pop` order, are exactly one shuffle |
| CoreGame.ResetState | tetris_core.py:42-54 | the whole state after `reset` is determined by the shuffle alone: empty board, zero counters, the last id current (as its base bitmap at column width//2 - 2, row -1), the one before as preview, the first five as bag, the level's delay |
| CoreGame.ResetDraws | tetris_core.py:42-49 | from an empty bag and no preview, `_fill_bag` leaves the first six ids of the shuffle in the bag and the last as preview, and the spawn then makes that id current and pops the sixth |
| CoreGame.ResetIsFair | tetris_core.py:42-49 | after `reset`, the current id, the preview and the bag form one fresh block |
| CoreGame.Game.constructor | tetris_core.py:35-40 | the constructor stores the settings (by default 10 x 20, level 0, lock delay 0.5) and is a `reset` |
| CoreGame.Game.Reset | tetris_core.py:42-54 | `reset` changes the state as `Reseted` says |
| CoreGame.Game.PopBag | tetris_core.py:65 | `pop` returns the last id and removes it |
| CoreGame.Game.FillBag | tetris_core.py:60-65 | `_fill_bag` changes the state as `Filled` says |
| CoreGame.Game.RefillBag | tetris_core.py:61-63 | the refill changes the state as `Refilled` says |
| CoreGame.Game.DrawPreview | tetris_core.py:64-65 | the preview draw changes the state as `Previewed` says |
| CoreGame.Game.SpawnFromBag | tetris_core.py:67-84 | `_spawn_from_bag` changes the state as `Spawned` says |
| CoreGame.Game.PromoteNext | tetris_core.py:75-76 | the promotion changes the state as `Promoted` says |
| CoreGame.Game.PlaceSpawned | tetris_core.py:77-84 | the placement changes the state as `Placing` says |
| CoreGame.Game.Collides | tetris_core.py:86-101 | `collides` is true exactly when the piece does not fit |
| CoreGame.Game.Rotate | tetris_core.py:104-117 | `rotate` changes the state as `Rotated` says and returns whether some kick fitted |
| CoreGame.Game.Move | tetris_core.py:119-124 | `move` changes the state as `Moved` says and returns whether the target fitted |
| CoreGame.Game.SoftDrop | tetris_core.py:126-132 | `soft_drop` changes the state as `SoftDropped` says and returns whether the row below fitted |
| CoreGame.Game.DropLoop | tetris_core.py:136-137 | the drop loop stops at the landing row |
| CoreGame.Game.HardDrop | tetris_core.py:134-138 | `hard_drop` changes the state as `HardDropped` says |
| CoreGame.Game.LockPiece | tetris_core.py:140-153 | `lock_piece` changes the state as `Locked` says |
| CoreGame.Game.PlaceAndScore | tetris_core.py:141-151 | the part of `lock_piece` before the spawn changes the state as `Scored` says |
| CoreGame.Game.ClearLines | tetris_core.py:155-161 | `clear_lines` replaces only the board, by the cleared board, and returns the number of full rows |
| CoreGame.Game.Update | tetris_core.py:170-187 | `update` changes the state as `Updated` says; `softDown` defaults to false |
| CoreGame.Game.GravityStep | tetris_core.py:179-187 | the gravity step changes the state as `Gravity` says |
| CoreGame.Game.BlockedStep | tetris_core.py:182-187 | a blocked gravity step changes the state as `Gravity` says |
| CoreGame.Game.GetBuffer | tetris_core.py:189-206 | the buffer is the board with the current id written into exactly the in-bounds cells under the piece; nothing is changed |
| CoreGame.Game.GetGhostY | tetris_core.py:208-213 | `get_ghost_y` returns the first row at or below the piece from which one more row down collides, and changes nothing |
| CoreGame.Game.GetGhostBuffer | tetris_core.py:215-226 | the ghost buffer is an empty board with the piece stamped at the landing row |
| CoreGame.Game.AddGarbage | tetris_core.py:228-235 | `add_garbage` replaces only the board, by the board with the garbage rows pushed in |
| TetrisRules.Turned | rules/tetris_rules.py:24-26 | turning any number of times keeps a 4x4 bitmap |
| TetrisRules.Piece | rules/tetris_rules.py:20-27 | every `PIECES[k][r]` is 4x4 |
| TetrisRules.PieceHasFourCells | rules/tetris_rules.py:20-27 | every rotation state of every piece has four cells |
| TetrisRules.PieceTurnsToNext | rules/tetris_rules.py:20-27 | turning state `r` gives state `(r + 1) % 4`; state 3 turns back into state 0 |
| TetrisRules.KickTablesShape | rules/tetris_rules.py:30-50 | both tables list exactly the eight transitions, each with five kicks starting at (0, 0) |
| TetrisRules.ClockwiseKicksListed | rules/tetris_rules.py:101-103 | the clockwise transition is always listed, so `try_rotate` uses the "I" table only for "I", and every list has five kicks starting at (0, 0) |
| TetrisRules.ShapeCellsSound | rules/tetris_rules.py:136-143 | every listed triple is a filled cell of the shape, shifted and tagged |
| TetrisRules.ShapeCellsComplete | rules/tetris_rules.py:136-143 | every filled cell of the shape is listed |
| TetrisRules.ShapeCellsExact | rules/tetris_rules.py:136-143 | the list holds exactly the covered cells, each tagged |
| TetrisRules.ShapeCellsCount | rules/tetris_rules.py:136-143 | the list has one entry per filled cell |
| TetrisRules.CollectCells | rules/tetris_rules.py:139-142 | the listing loop computes the cell list |
| TetrisRules.Refilled | rules/tetris_rules.py:66-70 | `_refill_bag` leaves a non-empty bag of ids |
| TetrisRules.TakeCurrent | rules/tetris_rules.py:74-79 | after the first draw there is a current id |
| TetrisRules.TakeNext | rules/tetris_rules.py:77 | after the second draw there is a preview id |
| TetrisRules.Spawned | rules/tetris_rules.py:72-84 | after `spawn_piece` there is a current id and a preview, in rotation 0 |
| TetrisRules.Shape | rules/tetris_rules.py:88 | the current shape is 4x4 |
| TetrisRules.RotatedWith | rules/tetris_rules.py:104-110 | a rotation with any shape and kick list keeps the invariant |
| TetrisRules.Rotated | rules/tetris_rules.py:100-110 | `try_rotate` keeps the invariant |
| TetrisRules.Placed | rules/tetris_rules.py:113-120 | writing the piece keeps the invariant |
| TetrisRules.Locked | rules/tetris_rules.py:112-122 | `lock_piece` keeps the invariant |
| TetrisRules.SpawnFacts | rules/tetris_rules.py:72-84 | a spawn sets rotation 0, column width//2 - 2, row -1. The old preview becomes current when there was one. There is always a new preview, and the board is untouched |
| TetrisRules.SpawnIgnoresBoard | rules/tetris_rules.py:72-84 | `spawn_piece` performs no fit check: the board has no influence on it |
| TetrisRules.TakeCurrentKeepsFair | rules/tetris_rules.py:73-75 | the first draw keeps the drawn ids a concatenation of shuffles |
| TetrisRules.TakeNextKeepsFair | rules/tetris_rules.py:76-81 | the preview draw keeps the drawn ids a concatenation of shuffles |
| TetrisRules.SpawnKeepsFair | rules/tetris_rules.py:72-81 | a spawn keeps the drawn ids a concatenation of shuffles of the seven keys |
| TetrisRules.RotateCommitsFirstFit | rules/tetris_rules.py:104-109 | a rotation commits rotation, x and y together at the first fitting kick |
| TetrisRules.RotateFailsUnchanged | rules/tetris_rules.py:110 | when no kick fits, nothing changes |
| TetrisRules.LockWritesOnlyPiece | rules/tetris_rules.py:112-122 | locking writes the id into exactly the in-bounds cells under the piece and leaves every other cell alone; a full row stays full, since `lock_piece` clears nothing itself |
| TetrisRules.LockKeepsPlacedBoard | rules/tetris_rules.py:121-122 | after the spawn the board is the placed board and there is a preview |
| TetrisRules.GhostRowFacts | rules/tetris_rules.py:146-148 | the ghost row is at or below the piece; the piece fits on every row down to it and not one row further |
| TetrisRules.GhostFacts | rules/tetris_rules.py:145-155 | the ghost is the current piece, same column and rotation, at the first row from which the next one down does not fit, tagged lower-case, four cells |
| TetrisRules.PreviewFacts | rules/tetris_rules.py:157-170 | the preview is empty iff there is no preview id; otherwise it is rotation 0 of that piece at (width//2 - 2, 0), tagged lower-case |
| TetrisRules.RotatedOutcome | rules/tetris_rules.py:100-110 | `try_rotate` either turns the piece to the next rotation state or changes nothing |
| TetrisRules.FirstSpawn | rules/tetris_rules.py:53-84 | from an empty engine, the refill and first spawn make the last two ids of the shuffle the current piece and the preview and leave the other five in the bag |
| TetrisRules.RulesEngine.constructor | rules/tetris_rules.py:53-64 | a new engine (by default 10 x 20) has an empty board; current piece and preview come from the end of the first shuffle, and the rest stays in the bag |
| TetrisRules.RulesEngine.RefillBag | rules/tetris_rules.py:66-70 | `_refill_bag` changes the state as `Refilled` says |
| TetrisRules.RulesEngine.PopBag | rules/tetris_rules.py:75 | `pop` returns and removes the last id |
| TetrisRules.RulesEngine.SpawnPiece | rules/tetris_rules.py:72-84 | `spawn_piece` changes the state as `Spawned` says |
| TetrisRules.RulesEngine.CheckFits | rules/tetris_rules.py:86-98 | `fits` is false exactly when some cell is outside the side walls, at or below the floor, or on an occupied visible cell |
| TetrisRules.RulesEngine.TryRotate | rules/tetris_rules.py:100-110 | `try_rotate` changes the state as `Rotated` says and returns whether the rotation state changed |
| TetrisRules.RulesEngine.TryKicks | rules/tetris_rules.py:104-110 | the kick loop commits the first fitting kick or changes nothing |
| TetrisRules.RulesEngine.LockPiece | rules/tetris_rules.py:112-122 | `lock_piece` changes the state as `Locked` says |
| TetrisRules.RulesEngine.ClearLines | rules/tetris_rules.py:124-130 | `clear_lines` replaces only the board, by the cleared board, and returns the number of full rows |
| TetrisRules.RulesEngine.GetCurrentCells | rules/tetris_rules.py:136-143 | the current cells are exactly the four covered cells, tagged with the id |
| TetrisRules.RulesEngine.GetGhostCells | rules/tetris_rules.py:145-155 | the ghost query returns the ghost cells and changes nothing |
| TetrisRules.RulesEngine.GetPreviewCells | rules/tetris_rules.py:157-170 | the preview query returns the preview cells and changes nothing |
| Tritris.TriominoShapes | rules/tritris_rules.py:4-30 | every rotation of I and L has three distinct cells, every rotation of D two, all offsets in [0, 2] x [0, 2] |
| Tritris.CheckOffsetsFit | rules/tritris_rules.py:71-80 | `fits` is false exactly when some cell is outside [0, width) x [0, height) (rows above the top included) or on an occupied cell |
| Tritris.DropRow | rules/tritris_rules.py:122-124 | the landing row is at or below the start, the piece fits down to it, and not one row further |
| Tritris.DropLoop | rules/tritris_rules.py:122-124 | the ghost loop returns the landing row |
| Tritris.FirstFit | rules/tritris_rules.py:85-92 | the answer is the first fitting kick, in list order, or none |
| Tritris.FirstFitAt | rules/tritris_rules.py:86-91 | a fitting kick preceded only by non-fitting ones is the one the search answers |
| Tritris.StampedOffsets | rules/tritris_rules.py:95-100 | writing a piece keeps the board `w` x `h` |
| Tritris.StampOffsets | rules/tritris_rules.py:95-100 | the writing loop computes the stamped board |
| Tritris.OffsetCells | rules/tritris_rules.py:114-119 | one triple per offset, in order, shifted and tagged |
| Tritris.CollectOffsetCells | rules/tritris_rules.py:117-118 | the listing loop computes the cell list |
| Tritris.Refilled | rules/tritris_rules.py:47-51 | `_refill_bag` leaves a non-empty bag of ids |
| Tritris.TakeCurrent | rules/tritris_rules.py:55-60 | after the first draw there is a current id |
| Tritris.TakeNext | rules/tritris_rules.py:58 | after the second draw there is a preview id |
| Tritris.Placing | rules/tritris_rules.py:63-69 | placing keeps the invariant |
| Tritris.Spawned | rules/tritris_rules.py:53-69 | after `spawn_piece` there is a preview id |
| Tritris.RotatedWith | rules/tritris_rules.py:86-92 | a rotation with any shape and kick list keeps the invariant |
| Tritris.Rotated | rules/tritris_rules.py:82-92 | `try_rotate` keeps the invariant |
| Tritris.Placed | rules/tritris_rules.py:95-100 | writing the piece keeps the invariant |
| Tritris.Locked | rules/tritris_rules.py:94-101 | `lock_piece` keeps the invariant |
| Tritris.ShapeBelowAnchor | rules/tritris_rules.py:4-30 | every shape has a cell and no negative row offset |
| Tritris.DrawFacts | rules/tritris_rules.py:54-62 | the draws keep the board and the flag; the old preview becomes current when there was one |
| Tritris.PlacingFacts | rules/tritris_rules.py:63-69 | placing sets rotation 0, column width//2 - 1, row 0, and sets the flag exactly when it was set or the piece does not fit there |
| Tritris.SpawnFacts | rules/tritris_rules.py:53-69 | a spawn sets rotation 0, column width//2 - 1, row 0, always leaves a preview, keeps the board, and sets the flag exactly when it was set or the piece does not fit |
| Tritris.GameOverSticky | rules/tritris_rules.py:43 | no operation clears the game-over flag: spawn, rotate, lock and clear all keep it |
| Tritris.TakeCurrentKeepsFair | rules/tritris_rules.py:54-60 | the first draw keeps the drawn ids a concatenation of shuffles |
| Tritris.TakeNextKeepsFair | rules/tritris_rules.py:57-62 | the preview draw keeps the drawn ids a concatenation of shuffles |
| Tritris.SpawnKeepsFair | rules/tritris_rules.py:47-62 | a spawn keeps the drawn ids a concatenation of shuffles of {I, L, D} |
| Tritris.RotateCommitsFirstFit | rules/tritris_rules.py:86-91 | a rotation commits rotation, x and y together at the first fitting kick |
| Tritris.RotateFailsUnchanged | rules/tritris_rules.py:92 | when no kick fits, nothing changes |
| Tritris.LockWritesAllCells | rules/tritris_rules.py:94-101 | when the piece fits, locking writes its id into every one of its cells and changes no other cell |
| Tritris.LockKeepsPlacedBoard | rules/tritris_rules.py:101 | after the spawn the board is the placed board and there is a preview |
| Tritris.GhostFacts | rules/tritris_rules.py:121-129 | the ghost is the current piece at the first row from which the next one down does not fit, tagged lower-case |
| Tritris.PreviewFacts | rules/tritris_rules.py:131-141 | the preview is empty iff there is no preview id; otherwise rotation 0 of it at (width//2 - 1, 0), tagged lower-case |
| Tritris.TritrisRules.constructor | rules/tritris_rules.py:33-45 | a new engine (by default 4 x 5) has an empty board, current piece and preview from the end of the shuffle, and the flag set exactly when the first piece does not fit |
| Tritris.TritrisRules.RefillBag | rules/tritris_rules.py:47-51 | `_refill_bag` changes the state as `Refilled` says |
| Tritris.TritrisRules.PopBag | rules/tritris_rules.py:56 | `pop` returns and removes the last id |
| Tritris.TritrisRules.SpawnPiece | rules/tritris_rules.py:53-69 | `spawn_piece` changes the state as `Spawned` says |
| Tritris.TritrisRules.DrawCurrent | rules/tritris_rules.py:54-60 | the first draw changes the state as `TakeCurrent` after `Refilled` says |
| Tritris.TritrisRules.DrawNext | rules/tritris_rules.py:57-62 | the second draw changes the state as `TakeNext` after `Refilled` says |
| Tritris.TritrisRules.PlaceSpawned | rules/tritris_rules.py:63-69 | the placement changes the state as `Placing` says |
| Tritris.TritrisRules.CheckFits | rules/tritris_rules.py:71-80 | `fits` answers whether the current piece fits |
| Tritris.TritrisRules.TryRotate | rules/tritris_rules.py:82-92 | `try_rotate` changes the state as `Rotated` says and returns whether the rotation state changed |
| Tritris.TritrisRules.TryKicks | rules/tritris_rules.py:86-92 | the kick loop commits the first fitting kick or changes nothing |
| Tritris.TritrisRules.LockPiece | rules/tritris_rules.py:94-101 | `lock_piece` changes the state as `Locked` says |
| Tritris.TritrisRules.ClearLines | rules/tritris_rules.py:103-109 | `clear_lines` replaces only the board, by the cleared board, and returns the number of full rows |
| Tritris.TritrisRules.GetCurrentCells | rules/tritris_rules.py:114-119 | one triple per offset of the current shape, tagged with the id |
| Tritris.TritrisRules.GetGhostCells | rules/tritris_rules.py:121-129 | the ghost query returns the ghost cells and changes nothing |
| Tritris.TritrisRules.GetPreviewCells | rules/tritris_rules.py:131-141 | the preview query returns the preview cells and changes nothing |
| Tritris.TritrisRules.IsGameOver | rules/tritris_rules.py:143-144 | `is_game_over` reports the flag |
| Sim.MoveStep | sim/tetris_sim.py:44-53 | a move keeps the engine invariant |
| Sim.RotateStep | sim/tetris_sim.py:55-57 | a rotate keeps the engine invariant |
| Sim.SoftDropStep | sim/tetris_sim.py:59-66 | a soft drop keeps the engine invariant |
| Sim.Settled | sim/tetris_sim.py:72-73 | locking then clearing keeps the engine invariant |
| Sim.HardDropStep | sim/tetris_sim.py:68-75 | a hard drop keeps the engine invariant |
| Sim.RepeatLeft | sim/tetris_sim.py:79-87 | the left auto-repeat keeps the engine invariant |
| Sim.RepeatRight | sim/tetris_sim.py:90-98 | the right auto-repeat keeps the engine invariant |
| Sim.RepeatStep | sim/tetris_sim.py:77-98 | auto-repeat keeps the engine invariant |
| Sim.GravityStep | sim/tetris_sim.py:115-125 | a gravity step keeps the engine invariant |
| Sim.BlockedStep | sim/tetris_sim.py:118-125 | a blocked gravity step (lock timer grown by the delay; lock, clear and timer restart once it reaches the lock delay) keeps the engine invariant |
| Sim.FallStep | sim/tetris_sim.py:109-125 | the gravity half of `update` (dt added to the accumulator; once it reaches the delay, the delay taken off and one gravity step made) keeps the engine invariant |
| Sim.UpdateStep | sim/tetris_sim.py:100-125 | `update` keeps the engine invariant |
| Sim.MoveAllOrNothing | sim/tetris_sim.py:44-53 | `move` changes something iff dx is not 0 and the piece fits one column over in dx's direction; it then shifts exactly one column and zeroes the lock timer, and otherwise changes nothing |
| Sim.MoveBackUndoes | sim/tetris_sim.py:44-53 | a successful move from a fitting position is undone, as far as the engine is concerned, by the move the other way |
| Sim.RotateResetsTimer | sim/tetris_sim.py:55-57 | `rotate` zeroes the lock timer exactly when `try_rotate` succeeded, and otherwise changes nothing |
| Sim.SoftDropOneRow | sim/tetris_sim.py:59-66 | `soft_drop` moves down exactly one row and zeroes the lock timer when the row below fits, and changes nothing otherwise |
| Sim.HardDropLocksAtGhost | sim/tetris_sim.py:68-75 | `hard_drop` locks at the ghost row, clears lines, zeroes the lock timer and records the cleared count |
| Sim.RepeatCounters | sim/tetris_sim.py:77-98 | a held direction's counter rises by exactly one per tick; a released one is 0; the held flags do not change |
| Sim.RepeatOnlyShifts | sim/tetris_sim.py:77-98 | auto-repeat changes only the column, left first then right, by at most one each way; it keeps the accumulator and `last_lines`, and either keeps the lock timer or restarts it at 0 (after a move) |
| Sim.AttemptsCount | sim/tetris_sim.py:80-84 | over the first n ticks of a hold a direction attempts 1 + (n - 1 - das) / arr moves once n - 1 exceeds das, and exactly 1 before |
| Sim.UpdateAccumulates | sim/tetris_sim.py:109-114 | the accumulator grows by dt and loses exactly the delay (soft drop: a tenth of the fall speed) when a step fires; it is not zeroed |
| Sim.UpdateFallsAtMostOne | sim/tetris_sim.py:113-117 | `update` moves the piece down at most one row, and exactly one with a zeroed lock timer when gravity fires and the row below fits |
| Sim.UpdateLocks | sim/tetris_sim.py:118-125 | when the lock timer reaches the lock delay the piece locks, lines clear, `last_lines` holds the count and the lock timer is 0 |
| Sim.GravityKeepsTimers | sim/tetris_sim.py:115-125 | a gravity step keeps the lock timer in [0, lock delay) |
| Sim.FallKeepsTimers | sim/tetris_sim.py:109-125 | the gravity half of `update` keeps the accumulator non-negative and the lock timer in [0, lock delay) when dt and the delay are not negative |
| Sim.UpdateKeepsTimers | sim/tetris_sim.py:100-125 | `update` keeps the accumulator non-negative and the lock timer in [0, lock delay) |
| Sim.InputState.constructor | sim/tetris_sim.py:5-11 | the timing is stored (by default DAS 12, ARR 1), nothing is held and both counters are 0 |
| Sim.InputState.PressLeft | sim/tetris_sim.py:13-15 | `press_left` holds left and zeroes its counter; right is untouched |
| Sim.InputState.ReleaseLeft | sim/tetris_sim.py:17-19 | `release_left` releases left and zeroes its counter; right is untouched |
| Sim.InputState.PressRight | sim/tetris_sim.py:21-23 | `press_right` holds right and zeroes its counter; left is untouched |
| Sim.InputState.ReleaseRight | sim/tetris_sim.py:25-27 | `release_right` releases right and zeroes its counter; left is untouched |
| Sim.TetrisSim.constructor | sim/tetris_sim.py:30-37 | the driver (by default the level-0 delay 1.0 and lock delay 0.5) starts with zero timers, no lines, and a fresh input state with DAS 12 and ARR 1 |
| Sim.TetrisSim.Move | sim/tetris_sim.py:44-53 | `move` changes engine and timers as `MoveStep` says |
| Sim.TetrisSim.Rotate | sim/tetris_sim.py:55-57 | `rotate` changes engine and timers as `RotateStep` says |
| Sim.TetrisSim.SoftDrop | sim/tetris_sim.py:59-66 | `soft_drop` changes engine and timers as `SoftDropStep` says and returns whether the row below fitted |
| Sim.TetrisSim.HardDrop | sim/tetris_sim.py:68-75 | `hard_drop` changes engine and timers as `HardDropStep` says |
| Sim.TetrisSim.DropLoop | sim/tetris_sim.py:69-70 | the drop loop stops at the ghost row |
| Sim.TetrisSim.SettleNow | sim/tetris_sim.py:72-75 | lock, clear, zero the lock timer and record the count |
| Sim.TetrisSim.UpdateInputAutorepeat | sim/tetris_sim.py:77-98 | auto-repeat changes engine, input and timers as `RepeatStep` says |
| Sim.TetrisSim.RepeatLeftTick | sim/tetris_sim.py:79-87 | the left half of auto-repeat changes engine, input and timers as `RepeatLeft` says |
| Sim.TetrisSim.RepeatRightTick | sim/tetris_sim.py:90-98 | the right half of auto-repeat changes engine, input and timers as `RepeatRight` says |
| Sim.TetrisSim.Update | sim/tetris_sim.py:100-125 | `update` changes engine, input and timers as `UpdateStep` says; `softHold` defaults to false |
| Sim.TetrisSim.Fall | sim/tetris_sim.py:109-125 | the gravity half of `update` changes the state as `FallStep` says |
| Sim.TetrisSim.GravityTick | sim/tetris_sim.py:115-125 | the gravity step changes the state as `GravityStep` says |
| Sim.TetrisSim.BlockedTick | sim/tetris_sim.py:118-125 | a blocked gravity step changes the state as `BlockedStep` says |
| Gameplay.Paint | gameplay.py:13-14 | one write keeps the frame `w` x `h` |
| Gameplay.Overlay | gameplay.py:12-20 | an overlay loop keeps the frame `w` x `h` |
| Gameplay.Composed | gameplay.py:4-21 | the composed frame is `w` x `h` |
| Gameplay.OverlayForced | gameplay.py:15-17 | the current-piece loop leaves each cell holding the last token listed there, or what it held; tokens off the frame change nothing |
| Gameplay.OverlayFills | gameplay.py:12-14 | the ghost and preview loops leave an occupied cell alone and give an empty cell the first token listed there; tokens off the frame change nothing |
| Gameplay.FramePriority | gameplay.py:4-21 | a frame cell shows the current piece if it covers it, else the board if occupied, else the ghost, else the preview, else nothing |
| Gameplay.CopyBoard | gameplay.py:7-11 | the copy loops produce the board |
| Gameplay.OverlayCells | gameplay.py:15-17 | an overlay loop computes `Overlay` |
| Gameplay.BuildFrame | gameplay.py:4-21 | `build_frame_from_rules` on the board and the three lists is the composed frame |
| Gameplay.BuildFrameFromTetris | gameplay.py:4-21 | with the tetromino engine, the frame composes its board, ghost, current and preview cells, and the engine is only read |
| Gameplay.BuildFrameFromTritris | gameplay.py:4-21 | with the triomino engine, the same, and the engine is only read |
| Gameplay.CellColorInRange | gameplay.py:31-51 | every colour component `frame_to_rgb` produces is in 0..255 |
| Gameplay.TriLowerKeyUnused | gameplay.py:27-29 | the lower-case key "x" of the triomino palette is never looked up |
| Gameplay.FrameToRgb | gameplay.py:31-51 | the colour frame has the frame's height and first-row width: black for empty, dim grey for lower-case, else the mode's palette with grey as default |
| UsbFrame.Format02Byte | renderer/usb_frame.py:49 | a component in 0..255 becomes exactly two upper-case hex digits that read back as it |
| UsbFrame.Format02NotByte | renderer/usb_frame.py:49 | a component outside 0..255 does not become two hex digits |
| UsbFrame.FlagEncodings | renderer/usb_frame.py:44-48 | a truthy non-tuple pixel is sent as `FF8000`, a falsy one as `000000` |
| UsbFrame.RowMajor | renderer/usb_frame.py:39-41 | the loops visit `h * w` pixels |
| UsbFrame.Decode | renderer/usb_frame.py:49 | a body decodes to one colour per six characters |
| UsbFrame.EncodeOne | renderer/usb_frame.py:42-49 | an in-range pixel is six hex digits that decode to its colour |
| UsbFrame.BodyShape | renderer/usb_frame.py:38-49 | with in-range pixels the body is six hex digits per pixel |
| UsbFrame.BodyRoundTrip | renderer/usb_frame.py:38-49 | with in-range pixels the body decodes back to the pixels' colours, in order |
| UsbFrame.RowMajorIndex | renderer/usb_frame.py:39-41 | pixel (x, y) is pixel `y * w + x` of the line (y outer, x inner) |
| UsbFrame.EncodePixel | renderer/usb_frame.py:41-49 | one loop round appends the pixel's six characters |
| UsbFrame.EncodeRow | renderer/usb_frame.py:40-49 | the inner loop encodes the row's first `w` pixels |
| UsbFrame.EncodeFrame | renderer/usb_frame.py:38-49 | the loops encode the frame in row-major order |
| UsbFrame.FrameRenderer.constructor | renderer/usb_frame.py:10-16 | the renderer keeps the size (by default 10 x 20) and whether the device opened |
| UsbFrame.FrameRenderer.Render | renderer/usb_frame.py:30-51 | without a device nothing is sent (`False`); with one, the line sent is the body followed by one newline |
| UsbFrame.LineLength | renderer/usb_frame.py:38-51 | with in-range pixels the line is `6 * h * w` hex digits and a final newline |
| UsbFrame.PixelReadsBack | renderer/usb_frame.py:38-49 | with in-range pixels pixel (x, y) decodes from group `y * w + x` of the line |
| UsbFrame.FrameColorsInRange | gameplay.py:31-51 | every colour `frame_to_rgb` produces is an in-range pixel, so its frames have the fixed layout |

## Left out

- `level_to_delay` (`0.8 ** level` in floating point) is not modelled. `Game` takes its level delay as the parameter `baseDelay`, and `TetrisSim` takes `fallSpeed`.
- Default arguments are kept where the model has the parameter: `Game` (10, 20, level 0, lock delay 0.5), `Game.update` and `TetrisSim.update` (no soft drop), the two rules engines (10 x 20 and 4 x 5), `InputState` (12, 1), `TetrisSim` (lock delay 0.5) and `USBFrameRenderer` (10 x 20).
- `CoreGame.Game.constructor`: `baseDelay` has no default, since it stands for `level_to_delay(level)` of whatever level is passed. `Sim.TetrisSim.constructor`: `fallSpeed` defaults to 1.0, the delay of the default level 0; the `level` argument itself is not kept.
- `UsbFrame.FrameRenderer.constructor`: `device_path` and `timeout=0.1` only matter to the device I/O, which is not modelled; `deviceOpen` stands for the outcome of opening the device.
- `random.shuffle` and `random.randrange` are not modelled as generators. Each call that may shuffle takes the permutation it would produce, and `add_garbage` takes the hole columns.
- Python floats are modelled as exact reals. The constants 0.1, 0.02, 1.0 and 0.0 are the same decimals.
- `update` of `Game` and of `TetrisSim` is modelled with real arithmetic. It is therefore not modelled where float rounding would make `>=` differ.
- `Sim.TetrisSim`: the driver is modelled over `RulesEngine` only. Python lets it drive any object with the same methods, such as `TritrisRules`; Dafny would need a trait, which this model does not use.
- `Sim.TetrisSim.constructor`: the `_fall_acc` attribute that `update` creates on its first call is modelled as a field that starts at 0.0. That is the value the first call gives it.
- `Sim.InputState.constructor`: requires `arr > 0`. With `arr == 0`, the `%` of `update_input_autorepeat` raises once the counter passes `das`; the model does not include that exception.
- `Cells.ClearIdempotent`: requires `w > 0`. On a zero-width board every row is full, so a second `clear_lines` clears all rows again instead of returning 0.
- `CoreGame.Game.AddGarbage`: requires a non-empty board when rows are added, because `pop(0)` on an empty board raises. It also requires the hole columns to lie in `[0, width)`, as `randrange(0, width)` gives.
- `Gameplay.FrameToRgb`: requires a non-empty frame whose rows are at least as wide as the first one. Other frames make the Python raise `IndexError`.
- `UsbFrame.FrameRenderer.Render`: requires a buffer of at least `height` rows of `width` pixels, for the same reason.
- Only integer tuples of length 3 are modelled as pixels. Other tuples and other element types are not.
- The device open, the write and flush, and the exception path of `render` (it drops the device and returns `False`) are file I/O and are not modelled. `Render` returns the line it would write.
- Case mapping (`lower`, `upper`, `islower`) is ASCII only. Piece ids are ASCII letters.
- `get_board` of both rules engines is the field `st.board`, read directly.
- `Game.piece_type` and `Game.next_piece_type` are tested for truthiness in the source. Ids are never empty strings, so the model tests for `None`.
- `PIECE_COLORS` of `tetris_core.py` is not used by the core and is not modelled.
- `run_gameplay`, `main.py`, `run_local.py`, the input handler, the pygame display, the screensaver and the network code are not part of this model.
