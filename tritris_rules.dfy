/** rules/tritris_rules.py: the `TritrisRules` engine, the same interface as
    `RulesEngine` over two- and three-cell pieces given as offset lists, on a small board
    (4 x 5 by default). Unlike the tetromino engines, a piece must lie entirely inside
    the board (rows above the top do not fit), and a spawn that does not fit sets a
    game-over flag that nothing clears. */
module Tritris {
  import opened Cells
  import opened Bag

  /** The piece ids in the order of `TRIOMINOES`. */
  const TriKeys: seq<char> := ['I', 'L', 'D']

  type Offsets = seq<(int, int)>

  /** `TRIOMINOES[k][rot]`: the (dx, dy) cells of piece `k` in rotation state `rot`. */
  function Triomino(k: char, rot: int): Offsets
    requires k in TriKeys && 0 <= rot < 4
  {
    match k
    case 'I' => if rot % 2 == 0 then [(0, 1), (1, 1), (2, 1)] else [(1, 0), (1, 1), (1, 2)]
    case 'L' =>
      if rot == 0 then [(0, 0), (0, 1), (1, 1)]
      else if rot == 1 then [(0, 1), (1, 1), (0, 2)]
      else if rot == 2 then [(0, 1), (1, 1), (1, 2)]
      else [(1, 0), (1, 1), (0, 1)]
    case 'D' => if rot % 2 == 0 then [(0, 0), (1, 0)] else [(0, 0), (0, 1)]
  }

  /** Every rotation of "I" and "L" has three distinct cells, every rotation of "D" two,
      and all offsets lie in [0, 2] x [0, 2]. */
  lemma TriominoShapes(k: char, rot: int)
    requires k in TriKeys && 0 <= rot < 4
    ensures var shape := Triomino(k, rot);
            && |shape| == (if k == 'D' then 2 else 3)
            && (forall i, j :: 0 <= i < j < |shape| ==> shape[i] != shape[j])
            && (forall i :: 0 <= i < |shape| ==> 0 <= shape[i].0 <= 2 && 0 <= shape[i].1 <= 2)
  {
  }

  /** Board cell (cx, cy) exists and is empty. */
  predicate Free(board: Board, w: nat, h: nat, cx: int, cy: int)
    requires IsBoard(board, w, h)
  {
    0 <= cx < w && 0 <= cy < h && board[cy][cx] == Empty
  }

  /** `fits` for an offset list: every cell is inside the board and on an empty cell. */
  predicate OffsetsFit(board: Board, w: nat, h: nat, shape: Offsets, x: int, y: int)
    requires IsBoard(board, w, h)
  {
    forall i :: 0 <= i < |shape| ==> Free(board, w, h, x + shape[i].0, y + shape[i].1)
  }

  /** The loop of `fits`, returning at the first cell that is outside or occupied. */
  method CheckOffsetsFit(board: Board, w: nat, h: nat, shape: Offsets, x: int, y: int) returns (ok: bool)
    requires IsBoard(board, w, h)
    ensures ok == OffsetsFit(board, w, h, shape, x, y)
  {
    var i := 0;
    while i < |shape|
      invariant 0 <= i <= |shape|
      invariant forall j :: 0 <= j < i ==> Free(board, w, h, x + shape[j].0, y + shape[j].1)
    {
      var (dx, dy) := shape[i];
      var px := x + dx;
      var py := y + dy;
      if px < 0 || px >= w || py < 0 || py >= h {
        return false;
      }
      if board[py][px] != Empty {
        return false;
      }
      i := i + 1;
    }
    return true;
  }

  /** A non-empty shape that fits is anchored above the floor. */
  lemma FitsAboveFloor(board: Board, w: nat, h: nat, shape: Offsets, x: int, y: int)
    requires IsBoard(board, w, h) && |shape| > 0 && (forall i :: 0 <= i < |shape| ==> shape[i].1 >= 0)
    requires OffsetsFit(board, w, h, shape, x, y)
    ensures y < h
  {
    assert 0 <= y + shape[0].1 < h;
  }

  /** The landing row of `get_ghost_cells`: from y, keep moving down while the next row
      fits. */
  function DropRow(board: Board, w: nat, h: nat, shape: Offsets, x: int, y: int): (gy: int)
    requires IsBoard(board, w, h) && |shape| > 0 && (forall i :: 0 <= i < |shape| ==> shape[i].1 >= 0)
    ensures gy >= y
    ensures !OffsetsFit(board, w, h, shape, x, gy + 1)
    ensures forall k :: y < k <= gy ==> OffsetsFit(board, w, h, shape, x, k)
    decreases h - y
  {
    if OffsetsFit(board, w, h, shape, x, y + 1) then
      FitsAboveFloor(board, w, h, shape, x, y + 1);
      DropRow(board, w, h, shape, x, y + 1)
    else
      y
  }

  /** The loop of `get_ghost_cells`: move down while the next row fits. */
  method DropLoop(board: Board, w: nat, h: nat, shape: Offsets, x: int, y: int) returns (gy: int)
    requires IsBoard(board, w, h) && |shape| > 0 && (forall i :: 0 <= i < |shape| ==> shape[i].1 >= 0)
    ensures gy == DropRow(board, w, h, shape, x, y)
  {
    gy := y;
    var f := CheckOffsetsFit(board, w, h, shape, x, gy + 1);
    while f
      invariant DropRow(board, w, h, shape, x, gy) == DropRow(board, w, h, shape, x, y)
      invariant f == OffsetsFit(board, w, h, shape, x, gy + 1)
      decreases h - gy
    {
      FitsAboveFloor(board, w, h, shape, x, gy + 1);
      gy := gy + 1;
      f := CheckOffsetsFit(board, w, h, shape, x, gy + 1);
    }
  }

  /** Index of the first kick, from index `i` on, at which the shape fits, if any. */
  function FirstFit(board: Board, w: nat, h: nat, shape: Offsets, x: int, y: int, kicks: seq<(int, int)>, i: nat): (r: Option<nat>)
    requires IsBoard(board, w, h) && i <= |kicks|
    ensures r.Some? ==> i <= r.value < |kicks| && OffsetsFit(board, w, h, shape, x + kicks[r.value].0, y + kicks[r.value].1)
    ensures r.Some? ==> forall j :: i <= j < r.value ==> !OffsetsFit(board, w, h, shape, x + kicks[j].0, y + kicks[j].1)
    ensures r.None? ==> forall j :: i <= j < |kicks| ==> !OffsetsFit(board, w, h, shape, x + kicks[j].0, y + kicks[j].1)
    decreases |kicks| - i
  {
    if i == |kicks| then None
    else if OffsetsFit(board, w, h, shape, x + kicks[i].0, y + kicks[i].1) then Some(i)
    else FirstFit(board, w, h, shape, x, y, kicks, i + 1)
  }

  /** The search answers the first fitting kick: if kick `i` fits and none from `start`
      up to it does, the search from `start` answers `i`. */
  lemma {:induction false} FirstFitAt(board: Board, w: nat, h: nat, shape: Offsets, x: int, y: int, kicks: seq<(int, int)>, start: nat, i: nat)
    requires IsBoard(board, w, h) && start <= i < |kicks|
    requires OffsetsFit(board, w, h, shape, x + kicks[i].0, y + kicks[i].1)
    requires forall j :: start <= j < i ==> !OffsetsFit(board, w, h, shape, x + kicks[j].0, y + kicks[j].1)
    ensures FirstFit(board, w, h, shape, x, y, kicks, start) == Some(i)
    decreases i - start
  {
    if start < i {
      FirstFitAt(board, w, h, shape, x, y, kicks, start + 1, i);
    }
  }

  /** The board with `v` written into every in-bounds cell of the shape at (x, y). */
  function StampedOffsets(board: Board, w: nat, h: nat, shape: Offsets, x: int, y: int, v: Cell): (nb: Board)
    requires IsBoard(board, w, h)
    ensures IsBoard(nb, w, h)
  {
    seq(h, r requires 0 <= r < h => seq(w, c requires 0 <= c < w => if (c - x, r - y) in shape then v else board[r][c]))
  }

  /** The loop of `lock_piece`: write `v` into each cell of the shape that lies inside
      the board. */
  method StampOffsets(board: Board, w: nat, h: nat, shape: Offsets, x: int, y: int, v: Cell) returns (nb: Board)
    requires IsBoard(board, w, h)
    ensures nb == StampedOffsets(board, w, h, shape, x, y, v)
  {
    nb := board;
    var i := 0;
    while i < |shape|
      invariant 0 <= i <= |shape| && IsBoard(nb, w, h)
      invariant forall r, c :: 0 <= r < h && 0 <= c < w ==>
                  nb[r][c] == (if (c - x, r - y) in shape[..i] then v else board[r][c])
    {
      var (dx, dy) := shape[i];
      var px := x + dx;
      var py := y + dy;
      if 0 <= py < h && 0 <= px < w {
        nb := nb[py := nb[py][px := v]];
      }
      assert shape[..i + 1] == shape[..i] + [shape[i]];
      i := i + 1;
    }
    assert shape[..|shape|] == shape;
    ghost var want := StampedOffsets(board, w, h, shape, x, y, v);
    forall r | 0 <= r < h
      ensures nb[r] == want[r]
    {
    }
  }

  /** The (x, y, tag) triples the `get_*_cells` loops append: one per offset, in order. */
  function OffsetCells(shape: Offsets, x: int, y: int, tag: char): (out: seq<(int, int, char)>)
    ensures |out| == |shape|
    ensures forall i :: 0 <= i < |shape| ==> out[i] == (x + shape[i].0, y + shape[i].1, tag)
  {
    seq(|shape|, i requires 0 <= i < |shape| => (x + shape[i].0, y + shape[i].1, tag))
  }

  /** The loop of the `get_*_cells` queries. */
  method CollectOffsetCells(shape: Offsets, x: int, y: int, tag: char) returns (out: seq<(int, int, char)>)
    ensures out == OffsetCells(shape, x, y, tag)
  {
    out := [];
    var i := 0;
    while i < |shape|
      invariant 0 <= i <= |shape|
      invariant out == OffsetCells(shape[..i], x, y, tag)
    {
      var (dx, dy) := shape[i];
      out := out + [(x + dx, y + dy, tag)];
      i := i + 1;
    }
    assert shape[..|shape|] == shape;
  }

  /** The kicks of `try_rotate`: center, left, right, up. */
  const TriKicks: seq<(int, int)> := [(0, 0), (-1, 0), (1, 0), (0, -1)]

  // ---------------------------------------------------------------------------
  // The engine as a value

  /** Every field `TritrisRules` updates. `current` is `None` only inside the
      constructor, before the first spawn. */
  datatype TState = TState(
    board: Board, bag: seq<char>, current: Option<char>, rotation: int, x: int, y: int,
    next: Option<char>, gameOver: bool)

  predicate IdsOk(s: TState)
  {
    && (forall i :: 0 <= i < |s.bag| ==> s.bag[i] in TriKeys)
    && (s.next.Some? ==> s.next.value in TriKeys)
    && (s.current.Some? ==> s.current.value in TriKeys)
  }

  predicate Inv(w: nat, h: nat, s: TState)
  {
    IsBoard(s.board, w, h) && IdsOk(s) && s.current.Some? && 0 <= s.rotation < 4
  }

  lemma ShuffleIds(perm: seq<char>)
    requires IsShuffleOf(perm, TriKeys)
    ensures |perm| == 3
    ensures forall i :: 0 <= i < |perm| ==> perm[i] in TriKeys
  {
    assert |perm| == |multiset(perm)| == 3;
    forall i | 0 <= i < |perm|
      ensures perm[i] in TriKeys
    {
      assert perm[i] in multiset(perm);
    }
  }

  /** `_refill_bag`: an empty bag becomes the shuffle `perm` of the three ids. */
  function Refilled(s: TState, perm: seq<char>): (t: TState)
    requires IdsOk(s) && IsShuffleOf(perm, TriKeys)
    ensures IdsOk(t) && t.bag != []
  {
    ShuffleIds(perm);
    s.(bag := Refill(s.bag, perm))
  }

  /** With no preview the current id is popped from the bag, otherwise the preview
      becomes current. */
  function TakeCurrent(s: TState): (t: TState)
    requires IdsOk(s) && s.bag != []
    ensures IdsOk(t) && t.current.Some?
  {
    if s.next.None? then s.(current := Some(s.bag[|s.bag| - 1]), bag := s.bag[..|s.bag| - 1])
    else s.(current := s.next)
  }

  /** `self.next_piece = self.bag.pop()`. */
  function TakeNext(s: TState): (t: TState)
    requires IdsOk(s) && s.bag != []
    ensures IdsOk(t) && t.next.Some?
  {
    s.(next := Some(s.bag[|s.bag| - 1]), bag := s.bag[..|s.bag| - 1])
  }

  /** The end of `spawn_piece`: rotation 0 at column width//2 - 1, row 0, and the
      game-over flag set if the piece does not fit there. */
  function Placing(w: nat, h: nat, s: TState): (t: TState)
    requires IsBoard(s.board, w, h) && IdsOk(s) && s.current.Some?
    ensures Inv(w, h, t)
  {
    var x := w / 2 - 1;
    var t := s.(rotation := 0, x := x, y := 0);
    if !OffsetsFit(s.board, w, h, Triomino(s.current.value, 0), x, 0) then t.(gameOver := true) else t
  }

  /** `spawn_piece`: refill (from `p1` if empty), take the current id, refill (from `p2`
      if empty), pop the preview, place the piece and check it. */
  function Spawned(w: nat, h: nat, s: TState, p1: seq<char>, p2: seq<char>): (t: TState)
    requires IsBoard(s.board, w, h) && IdsOk(s) && IsShuffleOf(p1, TriKeys) && IsShuffleOf(p2, TriKeys)
    ensures Inv(w, h, t) && t.next.Some?
  {
    Placing(w, h, TakeNext(Refilled(TakeCurrent(Refilled(s, p1)), p2)))
  }

  /** The shape of the current piece. */
  function Shape(s: TState): Offsets
    requires IdsOk(s) && s.current.Some? && 0 <= s.rotation < 4
  {
    Triomino(s.current.value, s.rotation)
  }

  /** `fits(x, y, rot)` for the current piece. */
  predicate Fits(w: nat, h: nat, s: TState, x: int, y: int, rot: int)
    requires Inv(w, h, s) && 0 <= rot < 4
  {
    OffsetsFit(s.board, w, h, Triomino(s.current.value, rot), x, y)
  }

  /** A rotation to state `newRot`, whose cells are `shape`, with a kick list: the first
      kick where the shape fits, or no change. */
  function RotatedWith(w: nat, h: nat, s: TState, newRot: int, shape: Offsets, kicks: seq<(int, int)>): (t: TState)
    requires Inv(w, h, s) && 0 <= newRot < 4
    ensures Inv(w, h, t)
  {
    var k := FirstFit(s.board, w, h, shape, s.x, s.y, kicks, 0);
    if k.None? then s
    else s.(rotation := newRot, x := s.x + kicks[k.value].0, y := s.y + kicks[k.value].1)
  }

  /** `try_rotate`: the next rotation state at the first of the four kicks where it
      fits. */
  function Rotated(w: nat, h: nat, s: TState): (t: TState)
    requires Inv(w, h, s)
    ensures Inv(w, h, t)
  {
    var newRot := (s.rotation + 1) % 4;
    RotatedWith(w, h, s, newRot, Triomino(s.current.value, newRot), TriKicks)
  }

  /** The writing loop of `lock_piece`. */
  function Placed(w: nat, h: nat, s: TState): (t: TState)
    requires Inv(w, h, s)
    ensures Inv(w, h, t)
  {
    s.(board := StampedOffsets(s.board, w, h, Shape(s), s.x, s.y, Block(s.current.value)))
  }

  /** `lock_piece`: write the piece, then spawn; no line clearing. */
  function Locked(w: nat, h: nat, s: TState, p1: seq<char>, p2: seq<char>): (t: TState)
    requires Inv(w, h, s) && IsShuffleOf(p1, TriKeys) && IsShuffleOf(p2, TriKeys)
    ensures Inv(w, h, t)
  {
    Spawned(w, h, Placed(w, h, s), p1, p2)
  }

  lemma ShapeBelowAnchor(s: TState)
    requires IdsOk(s) && s.current.Some? && 0 <= s.rotation < 4
    ensures |Shape(s)| > 0 && forall i :: 0 <= i < |Shape(s)| ==> Shape(s)[i].1 >= 0
  {
    TriominoShapes(s.current.value, s.rotation);
  }

  /** The landing row of the ghost. */
  function GhostRow(w: nat, h: nat, s: TState): int
    requires Inv(w, h, s)
  {
    ShapeBelowAnchor(s);
    DropRow(s.board, w, h, Shape(s), s.x, s.y)
  }

  /** `get_ghost_cells`: the current piece's cells at the landing row, tagged with the
      lower-case id. */
  function GhostCells(w: nat, h: nat, s: TState): seq<(int, int, char)>
    requires Inv(w, h, s)
  {
    OffsetCells(Shape(s), s.x, GhostRow(w, h, s), Lower(s.current.value))
  }

  /** `get_preview_cells`: rotation 0 of the preview at (width//2 - 1, 0), or nothing. */
  function PreviewCells(w: nat, s: TState): seq<(int, int, char)>
    requires IdsOk(s)
  {
    if s.next.None? then [] else OffsetCells(Triomino(s.next.value, 0), w / 2 - 1, 0, Lower(s.next.value))
  }

  // ---------------------------------------------------------------------------
  // Properties

  /** The draws of `spawn_piece` keep the board and the flag, and the new current id is
      the old preview when there was one. */
  lemma DrawFacts(w: nat, h: nat, s: TState, p1: seq<char>, p2: seq<char>)
    requires IsBoard(s.board, w, h) && IdsOk(s) && IsShuffleOf(p1, TriKeys) && IsShuffleOf(p2, TriKeys)
    ensures var d := TakeNext(Refilled(TakeCurrent(Refilled(s, p1)), p2));
            && d.board == s.board && d.gameOver == s.gameOver
            && (s.next.Some? ==> d.current == s.next)
  {
  }

  /** Placing keeps the ids and the board, puts the piece in rotation 0 at column
      width//2 - 1, row 0, and sets the flag exactly when the piece does not fit there. */
  lemma PlacingFacts(w: nat, h: nat, s: TState)
    requires IsBoard(s.board, w, h) && IdsOk(s) && s.current.Some?
    ensures var t := Placing(w, h, s);
            && t.rotation == 0 && t.x == w / 2 - 1 && t.y == 0
            && t.board == s.board && t.current == s.current && t.next == s.next && t.bag == s.bag
            && (t.gameOver <==> s.gameOver || !OffsetsFit(s.board, w, h, Triomino(s.current.value, 0), w / 2 - 1, 0))
  {
  }

  /** `spawn_piece` places the new piece in rotation 0 at column width//2 - 1, row 0;
      it is the old preview when there was one; it always leaves a preview; the board is
      carried over; and the game is over exactly when it already was or the new piece
      does not fit there. */
  lemma SpawnFacts(w: nat, h: nat, s: TState, p1: seq<char>, p2: seq<char>)
    requires IsBoard(s.board, w, h) && IdsOk(s) && IsShuffleOf(p1, TriKeys) && IsShuffleOf(p2, TriKeys)
    ensures var t := Spawned(w, h, s, p1, p2);
            && t.rotation == 0 && t.x == w / 2 - 1 && t.y == 0 && t.next.Some?
            && (s.next.Some? ==> t.current == s.next)
            && t.board == s.board
            && (t.gameOver <==> s.gameOver || !OffsetsFit(s.board, w, h, Triomino(t.current.value, 0), t.x, 0))
  {
    DrawFacts(w, h, s, p1, p2);
    PlacingFacts(w, h, TakeNext(Refilled(TakeCurrent(Refilled(s, p1)), p2)));
  }

  /** The game-over flag is sticky: spawning, rotating, locking and clearing never
      clear it. */
  lemma GameOverSticky(w: nat, h: nat, s: TState, p1: seq<char>, p2: seq<char>)
    requires Inv(w, h, s) && IsShuffleOf(p1, TriKeys) && IsShuffleOf(p2, TriKeys) && s.gameOver
    ensures Spawned(w, h, s, p1, p2).gameOver
    ensures Rotated(w, h, s).gameOver
    ensures Locked(w, h, s, p1, p2).gameOver
    ensures s.(board := Cleared(s.board, w)).gameOver
  {
    SpawnFacts(w, h, s, p1, p2);
    SpawnFacts(w, h, Placed(w, h, s), p1, p2);
  }

  /** The ids `spawn_piece` pops before the preview, in order. */
  function Draws(s: TState, p1: seq<char>): seq<char>
    requires IdsOk(s) && IsShuffleOf(p1, TriKeys)
  {
    var r := Refilled(s, p1);
    if s.next.None? then [r.bag[|r.bag| - 1]] else []
  }

  lemma TakeCurrentKeepsFair(s: TState, p1: seq<char>, drawn: seq<char>)
    requires IdsOk(s) && IsShuffleOf(p1, TriKeys)
    requires PermBlocks(drawn + Rev(s.bag), TriKeys)
    ensures PermBlocks(drawn + Draws(s, p1) + Rev(TakeCurrent(Refilled(s, p1)).bag), TriKeys)
  {
    var r := Refilled(s, p1);
    assert r.bag == Refill(s.bag, p1);
    if s.next.None? {
      DrawKeepsBlocks(drawn, s.bag, p1, TriKeys);
      assert TakeCurrent(r).bag == r.bag[..|r.bag| - 1];
    } else {
      RefillKeepsBlocks(drawn, s.bag, p1, TriKeys);
      assert drawn + Draws(s, p1) == drawn;
    }
  }

  lemma TakeNextKeepsFair(s: TState, p2: seq<char>, drawn: seq<char>)
    requires IdsOk(s) && IsShuffleOf(p2, TriKeys)
    requires PermBlocks(drawn + Rev(s.bag), TriKeys)
    ensures var t := TakeNext(Refilled(s, p2));
            PermBlocks(drawn + [t.next.value] + Rev(t.bag), TriKeys)
  {
    DrawKeepsBlocks(drawn, s.bag, p2, TriKeys);
  }

  /** Fairness of the 3-bag, one spawn at a time: the ids drawn so far followed by the
      bag in `pop` order stay a concatenation of shuffles of {I, L, D}. */
  lemma SpawnKeepsFair(w: nat, h: nat, s: TState, p1: seq<char>, p2: seq<char>, drawn: seq<char>)
    requires IsBoard(s.board, w, h) && IdsOk(s) && IsShuffleOf(p1, TriKeys) && IsShuffleOf(p2, TriKeys)
    requires PermBlocks(drawn + Rev(s.bag), TriKeys)
    ensures var t := Spawned(w, h, s, p1, p2);
            PermBlocks(drawn + Draws(s, p1) + [t.next.value] + Rev(t.bag), TriKeys)
  {
    TakeCurrentKeepsFair(s, p1, drawn);
    var c := TakeCurrent(Refilled(s, p1));
    TakeNextKeepsFair(c, p2, drawn + Draws(s, p1));
    var n := TakeNext(Refilled(c, p2));
    assert Spawned(w, h, s, p1, p2).next == n.next && Spawned(w, h, s, p1, p2).bag == n.bag;
  }

  /** A rotation commits the new state at the FIRST kick, in list order, where its shape
      fits. `try_rotate` is the instance with the next state, its shape and the four
      kicks. */
  lemma RotateCommitsFirstFit(w: nat, h: nat, s: TState, newRot: int, shape: Offsets, kicks: seq<(int, int)>, i: nat)
    requires Inv(w, h, s) && 0 <= newRot < 4 && i < |kicks|
    requires OffsetsFit(s.board, w, h, shape, s.x + kicks[i].0, s.y + kicks[i].1)
    requires forall j :: 0 <= j < i ==> !OffsetsFit(s.board, w, h, shape, s.x + kicks[j].0, s.y + kicks[j].1)
    ensures RotatedWith(w, h, s, newRot, shape, kicks) == s.(rotation := newRot, x := s.x + kicks[i].0, y := s.y + kicks[i].1)
  {
    FirstFitAt(s.board, w, h, shape, s.x, s.y, kicks, 0, i);
  }

  /** When no kick fits, a rotation changes nothing. */
  lemma RotateFailsUnchanged(w: nat, h: nat, s: TState, newRot: int, shape: Offsets, kicks: seq<(int, int)>)
    requires Inv(w, h, s) && 0 <= newRot < 4
    requires forall j :: 0 <= j < |kicks| ==> !OffsetsFit(s.board, w, h, shape, s.x + kicks[j].0, s.y + kicks[j].1)
    ensures RotatedWith(w, h, s, newRot, shape, kicks) == s
  {
    var k := FirstFit(s.board, w, h, shape, s.x, s.y, kicks, 0);
    assert k.None?;
  }

  /** When the current piece fits, `lock_piece` writes its id into every one of its
      cells (none is dropped), and changes no other cell. */
  lemma LockWritesAllCells(w: nat, h: nat, s: TState, cx: int, cy: int)
    requires Inv(w, h, s) && Fits(w, h, s, s.x, s.y, s.rotation)
    ensures forall i :: 0 <= i < |Shape(s)| ==>
              var px := s.x + Shape(s)[i].0; var py := s.y + Shape(s)[i].1;
              0 <= px < w && 0 <= py < h && Placed(w, h, s).board[py][px] == Block(s.current.value)
    ensures 0 <= cx < w && 0 <= cy < h && (cx - s.x, cy - s.y) !in Shape(s) ==>
              Placed(w, h, s).board[cy][cx] == s.board[cy][cx]
  {
    forall i | 0 <= i < |Shape(s)|
      ensures var px := s.x + Shape(s)[i].0; var py := s.y + Shape(s)[i].1;
              0 <= px < w && 0 <= py < h && Placed(w, h, s).board[py][px] == Block(s.current.value)
    {
      var px := s.x + Shape(s)[i].0; var py := s.y + Shape(s)[i].1;
      assert (px - s.x, py - s.y) == Shape(s)[i];
    }
  }

  /** After locking, the board is the placed board (the spawn keeps it). */
  lemma LockKeepsPlacedBoard(w: nat, h: nat, s: TState, p1: seq<char>, p2: seq<char>)
    requires Inv(w, h, s) && IsShuffleOf(p1, TriKeys) && IsShuffleOf(p2, TriKeys)
    ensures Locked(w, h, s, p1, p2).board == Placed(w, h, s).board
    ensures Locked(w, h, s, p1, p2).next.Some?
  {
    SpawnFacts(w, h, Placed(w, h, s), p1, p2);
  }

  /** The ghost is the current piece at the first row at or below y from which one more
      row down does not fit, tagged with the lower-case id. */
  lemma GhostFacts(w: nat, h: nat, s: TState)
    requires Inv(w, h, s)
    ensures var gy := GhostRow(w, h, s);
            && gy >= s.y && !Fits(w, h, s, s.x, gy + 1, s.rotation)
            && (forall k :: s.y < k <= gy ==> Fits(w, h, s, s.x, k, s.rotation))
            && GhostCells(w, h, s) == OffsetCells(Shape(s), s.x, gy, Lower(s.current.value))
  {
  }

  /** The preview is empty exactly when there is no preview id; otherwise it lists the
      cells of rotation 0 of that piece at (width//2 - 1, 0), tagged lower-case. */
  lemma PreviewFacts(w: nat, s: TState)
    requires IdsOk(s)
    ensures PreviewCells(w, s) == [] <==> s.next.None?
    ensures s.next.Some? ==>
              forall i :: 0 <= i < |PreviewCells(w, s)| ==>
                PreviewCells(w, s)[i] == (w / 2 - 1 + Triomino(s.next.value, 0)[i].0, Triomino(s.next.value, 0)[i].1, Lower(s.next.value))
  {
    if s.next.Some? {
      TriominoShapes(s.next.value, 0);
    }
  }

  // ---------------------------------------------------------------------------
  // The engine

  class TritrisRules {
    const width: nat
    const height: nat
    /** The fields `TritrisRules` updates (board, bag, current id, rotation, position,
        preview id, game-over flag), kept together. */
    var st: TState

    ghost predicate Valid()
      reads this`st
    {
      Inv(width, height, st)
    }

    /** `__init__`: an empty board and bag, no game over, then `_refill_bag` and
        `spawn_piece` (the shuffle is supplied as `perm`). */
    constructor (width: nat := 4, height: nat := 5, perm: seq<char>)
      requires IsShuffleOf(perm, TriKeys)
      ensures this.width == width && this.height == height
      ensures st.board == EmptyRows(width, height) && st.current == Some(perm[2]) && st.next == Some(perm[1])
      ensures st.bag == perm[..1] && st.rotation == 0 && st.x == width / 2 - 1 && st.y == 0
      ensures st.gameOver <==> !OffsetsFit(st.board, width, height, Triomino(perm[2], 0), width / 2 - 1, 0)
      ensures Valid()
    {
      this.width := width;
      this.height := height;
      st := TState(EmptyRows(width, height), [], None, 0, 0, 0, None, false);
      new;
      ShuffleIds(perm);
      RefillBag(perm);
      SpawnPiece(perm, perm);
      PrefixOfPrefix(perm, 2, 1);
    }

    /** `_refill_bag`. */
    method RefillBag(perm: seq<char>)
      requires IdsOk(st) && IsShuffleOf(perm, TriKeys)
      modifies this`st
      ensures st == Refilled(old(st), perm)
    {
      if st.bag == [] {
        st := st.(bag := perm);
      }
    }

    /** `bag.pop()`. */
    method PopBag() returns (k: char)
      requires st.bag != []
      modifies this`st
      ensures k == old(st.bag)[|old(st.bag)| - 1]
      ensures st == old(st).(bag := old(st.bag)[..|old(st.bag)| - 1])
    {
      k := st.bag[|st.bag| - 1];
      st := st.(bag := st.bag[..|st.bag| - 1]);
    }

    /** `spawn_piece`, with the shuffles for its two possible refills. */
    method SpawnPiece(p1: seq<char>, p2: seq<char>)
      requires IsBoard(st.board, width, height) && IdsOk(st) && IsShuffleOf(p1, TriKeys) && IsShuffleOf(p2, TriKeys)
      modifies this`st
      ensures st == Spawned(width, height, old(st), p1, p2)
    {
      DrawCurrent(p1);
      DrawNext(p2);
      PlaceSpawned();
    }

    /** The first draw of `spawn_piece`: the preview becomes current, or with no preview
        the current id is popped from the (refilled) bag. */
    method DrawCurrent(p1: seq<char>)
      requires IdsOk(st) && IsShuffleOf(p1, TriKeys)
      modifies this`st
      ensures st == TakeCurrent(Refilled(old(st), p1))
    {
      RefillBag(p1);
      if st.next.None? {
        var k := PopBag();
        st := st.(current := Some(k));
      } else {
        st := st.(current := st.next);
      }
    }

    /** The second draw of `spawn_piece`: pop the new preview from the (refilled) bag. */
    method DrawNext(p2: seq<char>)
      requires IdsOk(st) && IsShuffleOf(p2, TriKeys)
      modifies this`st
      ensures st == TakeNext(Refilled(old(st), p2))
    {
      RefillBag(p2);
      var k := PopBag();
      st := st.(next := Some(k));
    }

    /** The end of `spawn_piece`: place the piece and set the game-over flag if it does
        not fit there. */
    method PlaceSpawned()
      requires IsBoard(st.board, width, height) && IdsOk(st) && st.current.Some?
      modifies this`st
      ensures st == Placing(width, height, old(st))
    {
      st := st.(rotation := 0, x := width / 2 - 1, y := 0);
      var ok := CheckOffsetsFit(st.board, width, height, Triomino(st.current.value, 0), st.x, st.y);
      if !ok {
        st := st.(gameOver := true);
      }
    }

    /** `fits(x, y, rot)`. */
    method CheckFits(x: int, y: int, rot: int) returns (ok: bool)
      requires Valid() && 0 <= rot < 4
      ensures ok == Fits(width, height, st, x, y, rot)
    {
      ok := CheckOffsetsFit(st.board, width, height, Triomino(st.current.value, rot), x, y);
    }

    /** `try_rotate`: try the four kicks for the next rotation state in order and commit
        the first one where the piece fits; report whether it rotated. */
    method TryRotate() returns (ok: bool)
      requires Valid()
      modifies this`st
      ensures st == Rotated(width, height, old(st))
      ensures ok <==> st.rotation != old(st.rotation)
      ensures Valid()
    {
      var newRot := (st.rotation + 1) % 4;
      assert newRot == if st.rotation == 3 then 0 else st.rotation + 1;
      ok := TryKicks(newRot, Triomino(st.current.value, newRot), TriKicks);
    }

    /** The kick loop of `try_rotate`, for rotation state `newRot` with cells `shape`. */
    method TryKicks(newRot: int, shape: Offsets, kicks: seq<(int, int)>) returns (ok: bool)
      requires Valid() && 0 <= newRot < 4
      modifies this`st
      ensures st == RotatedWith(width, height, old(st), newRot, shape, kicks)
      ensures ok ==> st.rotation == newRot
      ensures !ok ==> st == old(st)
    {
      var i := 0;
      while i < |kicks|
        invariant 0 <= i <= |kicks| && st == old(st)
        invariant forall j :: 0 <= j < i ==> !OffsetsFit(st.board, width, height, shape, st.x + kicks[j].0, st.y + kicks[j].1)
      {
        var (ox, oy) := kicks[i];
        var f := CheckOffsetsFit(st.board, width, height, shape, st.x + ox, st.y + oy);
        if f {
          RotateCommitsFirstFit(width, height, st, newRot, shape, kicks, i);
          st := st.(rotation := newRot, x := st.x + ox, y := st.y + oy);
          return true;
        }
        i := i + 1;
      }
      RotateFailsUnchanged(width, height, st, newRot, shape, kicks);
      return false;
    }

    /** `lock_piece`: write the piece into its in-bounds cells, then spawn. */
    method LockPiece(p1: seq<char>, p2: seq<char>)
      requires Valid() && IsShuffleOf(p1, TriKeys) && IsShuffleOf(p2, TriKeys)
      modifies this`st
      ensures st == Locked(width, height, old(st), p1, p2)
      ensures Valid()
    {
      var nb := StampOffsets(st.board, width, height, Shape(st), st.x, st.y, Block(st.current.value));
      st := st.(board := nb);
      SpawnPiece(p1, p2);
    }

    /** `clear_lines`. */
    method ClearLines() returns (cleared: int)
      requires Valid()
      modifies this`st
      ensures st == old(st).(board := Cleared(old(st.board), width))
      ensures cleared == FullCount(old(st.board))
      ensures Valid()
    {
      var nb;
      nb, cleared := ClearFullRows(st.board, width, height);
      st := st.(board := nb);
    }

    /** `get_current_cells`: one triple per offset, tagged with the id. */
    method GetCurrentCells() returns (out: seq<(int, int, char)>)
      requires Valid()
      ensures out == OffsetCells(Shape(st), st.x, st.y, st.current.value)
      ensures |out| == |Shape(st)|
      ensures forall i :: 0 <= i < |out| ==> out[i] == (st.x + Shape(st)[i].0, st.y + Shape(st)[i].1, st.current.value)
    {
      out := CollectOffsetCells(Shape(st), st.x, st.y, st.current.value);
    }

    /** `get_ghost_cells`: drop a copy of the piece while the next row fits. */
    method GetGhostCells() returns (out: seq<(int, int, char)>)
      requires Valid()
      ensures out == GhostCells(width, height, st)
    {
      ShapeBelowAnchor(st);
      var gy := DropLoop(st.board, width, height, Shape(st), st.x, st.y);
      out := CollectOffsetCells(Shape(st), st.x, gy, Lower(st.current.value));
    }

    /** `get_preview_cells`. */
    method GetPreviewCells() returns (out: seq<(int, int, char)>)
      requires Valid()
      ensures out == PreviewCells(width, st)
    {
      if st.next.None? {
        return [];
      }
      var piece := st.next.value;
      out := CollectOffsetCells(Triomino(piece, 0), width / 2 - 1, 0, Lower(piece));
    }

    /** `is_game_over`. */
    method IsGameOver() returns (over: bool)
      ensures over == st.gameOver
    {
      return st.gameOver;
    }
  }
}
