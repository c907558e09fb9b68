/** The 4x4 tetromino bitmaps and their clockwise rotation (identical in tetris_core.py
    and rules/tetris_rules.py), and the placement logic both tetromino engines share:
    whether a 4x4 shape fits at an anchor, stamping it into a board, dropping it until
    blocked, and first-fit search over a kick list. */
module Tetromino {
  import opened Cells

  /** A 4x4 bitmap, row `ry` then column `rx` (the source stores 0/1). */
  type Matrix = seq<seq<bool>>

  predicate Is4x4(m: Matrix)
  {
    |m| == 4 && forall r :: 0 <= r < 4 ==> |m[r]| == 4
  }

  /** `rotate_cw`: entry (r, c) of the result is entry (3 - c, r) of the input. */
  function RotateCw(m: Matrix): (rot: Matrix)
    requires Is4x4(m)
    ensures Is4x4(rot)
  {
    [[m[3][0], m[2][0], m[1][0], m[0][0]],
     [m[3][1], m[2][1], m[1][1], m[0][1]],
     [m[3][2], m[2][2], m[1][2], m[0][2]],
     [m[3][3], m[2][3], m[1][3], m[0][3]]]
  }

  /** The piece ids in the order of the source's dictionaries. */
  const Keys: seq<char> := ['I', 'O', 'T', 'J', 'L', 'S', 'Z']

  function Bits(a: int, b: int, c: int, d: int): seq<bool>
  {
    [a == 1, b == 1, c == 1, d == 1]
  }

  /** `TETROMINOS` / `BASE_PIECES`: rotation state 0 of each piece. */
  function Base(k: char): (m: Matrix)
    requires k in Keys
    ensures Is4x4(m)
  {
    match k
    case 'I' => [Bits(0, 0, 0, 0), Bits(1, 1, 1, 1), Bits(0, 0, 0, 0), Bits(0, 0, 0, 0)]
    case 'O' => [Bits(0, 1, 1, 0), Bits(0, 1, 1, 0), Bits(0, 0, 0, 0), Bits(0, 0, 0, 0)]
    case 'T' => [Bits(0, 1, 0, 0), Bits(1, 1, 1, 0), Bits(0, 0, 0, 0), Bits(0, 0, 0, 0)]
    case 'J' => [Bits(1, 0, 0, 0), Bits(1, 1, 1, 0), Bits(0, 0, 0, 0), Bits(0, 0, 0, 0)]
    case 'L' => [Bits(0, 0, 1, 0), Bits(1, 1, 1, 0), Bits(0, 0, 0, 0), Bits(0, 0, 0, 0)]
    case 'S' => [Bits(0, 1, 1, 0), Bits(1, 1, 0, 0), Bits(0, 0, 0, 0), Bits(0, 0, 0, 0)]
    case 'Z' => [Bits(1, 1, 0, 0), Bits(0, 1, 1, 0), Bits(0, 0, 0, 0), Bits(0, 0, 0, 0)]
  }

  function Bit(b: bool): nat
  {
    if b then 1 else 0
  }

  function RowCount(row: seq<bool>): nat
    requires |row| == 4
  {
    Bit(row[0]) + Bit(row[1]) + Bit(row[2]) + Bit(row[3])
  }

  /** Number of filled cells of a 4x4 bitmap. */
  function CellCount(m: Matrix): nat
    requires Is4x4(m)
  {
    RowCount(m[0]) + RowCount(m[1]) + RowCount(m[2]) + RowCount(m[3])
  }

  predicate HasCell(m: Matrix)
    requires Is4x4(m)
  {
    exists ry, rx :: 0 <= ry < 4 && 0 <= rx < 4 && m[ry][rx]
  }

  /** Rotation moves cells around but keeps their number. */
  lemma RotateCwKeepsCount(m: Matrix)
    requires Is4x4(m)
    ensures CellCount(RotateCw(m)) == CellCount(m)
  {
  }

  /** Four clockwise quarter turns give back the original bitmap. */
  lemma RotateCwFourTimes(m: Matrix)
    requires Is4x4(m)
    ensures RotateCw(RotateCw(RotateCw(RotateCw(m)))) == m
  {
    var r1 := RotateCw(m);
    var r2 := RotateCw(r1);
    var r3 := RotateCw(r2);
    var r4 := RotateCw(r3);
    forall r, c | 0 <= r < 4 && 0 <= c < 4
      ensures r4[r][c] == m[r][c]
    {
      assert r4[r][c] == r3[3 - c][r] == r2[3 - r][3 - c] == r1[c][3 - r] == m[r][c];
    }
    forall r | 0 <= r < 4
      ensures r4[r] == m[r]
    {
    }
  }

  lemma CountHasCell(m: Matrix)
    requires Is4x4(m) && CellCount(m) > 0
    ensures HasCell(m)
  {
  }

  /** Every base shape has exactly four cells. */
  lemma BaseHasFourCells(k: char)
    requires k in Keys
    ensures CellCount(Base(k)) == 4
  {
  }

  /** Board cell (cx, cy) blocks a piece cell: outside the side walls, at or below the
      floor, or a filled visible cell. Rows above the top (cy < 0) never block. */
  predicate Blocked(board: Board, w: nat, h: nat, cx: int, cy: int)
    requires IsBoard(board, w, h)
  {
    cx < 0 || cx >= w || cy >= h || (cy >= 0 && board[cy][cx] != Empty)
  }

  /** Shape `shape` anchored at (x, y) fits: none of its filled cells is blocked. */
  predicate MatrixFits(board: Board, w: nat, h: nat, shape: Matrix, x: int, y: int)
    requires IsBoard(board, w, h) && Is4x4(shape)
  {
    forall ry, rx :: 0 <= ry < 4 && 0 <= rx < 4 && shape[ry][rx] ==> !Blocked(board, w, h, x + rx, y + ry)
  }

  /** The double loop of `collides` / `fits`, returning at the first blocked cell. */
  method CheckMatrixFits(board: Board, w: nat, h: nat, shape: Matrix, x: int, y: int) returns (ok: bool)
    requires IsBoard(board, w, h) && Is4x4(shape)
    ensures ok == MatrixFits(board, w, h, shape, x, y)
  {
    var ry := 0;
    while ry < 4
      invariant 0 <= ry <= 4
      invariant forall r, c :: 0 <= r < ry && 0 <= c < 4 && shape[r][c] ==> !Blocked(board, w, h, x + c, y + r)
    {
      var rx := 0;
      while rx < 4
        invariant 0 <= rx <= 4
        invariant forall r, c :: 0 <= r < ry && 0 <= c < 4 && shape[r][c] ==> !Blocked(board, w, h, x + c, y + r)
        invariant forall c :: 0 <= c < rx && shape[ry][c] ==> !Blocked(board, w, h, x + c, y + ry)
      {
        if shape[ry][rx] {
          var cx := x + rx;
          var cy := y + ry;
          if cx < 0 || cx >= w {
            return false;
          }
          if cy >= h {
            return false;
          }
          if cy >= 0 && board[cy][cx] != Empty {
            return false;
          }
        }
        rx := rx + 1;
      }
      ry := ry + 1;
    }
    return true;
  }

  /** A shape with a cell that fits at row y is anchored above the floor. */
  lemma FitsAboveFloor(board: Board, w: nat, h: nat, shape: Matrix, x: int, y: int)
    requires IsBoard(board, w, h) && Is4x4(shape) && HasCell(shape)
    requires MatrixFits(board, w, h, shape, x, y)
    ensures y < h
  {
    var ry, rx :| 0 <= ry < 4 && 0 <= rx < 4 && shape[ry][rx];
    assert !Blocked(board, w, h, x + rx, y + ry);
  }

  /** The landing row of `get_ghost_y` / `get_ghost_cells` / the hard-drop loop:
      keep moving down while the next row fits. */
  function DropRow(board: Board, w: nat, h: nat, shape: Matrix, x: int, y: int): (gy: int)
    requires IsBoard(board, w, h) && Is4x4(shape) && HasCell(shape)
    ensures gy >= y
    ensures !MatrixFits(board, w, h, shape, x, gy + 1)
    ensures forall k :: y < k <= gy ==> MatrixFits(board, w, h, shape, x, k)
    decreases h - y
  {
    if MatrixFits(board, w, h, shape, x, y + 1) then
      FitsAboveFloor(board, w, h, shape, x, y + 1);
      DropRow(board, w, h, shape, x, y + 1)
    else
      y
  }

  /** The loop of `get_ghost_cells` in the rules engine: from row `y`, move down while
      the next row fits. */
  method DropLoop(board: Board, w: nat, h: nat, shape: Matrix, x: int, y: int) returns (gy: int)
    requires IsBoard(board, w, h) && Is4x4(shape) && HasCell(shape)
    ensures gy == DropRow(board, w, h, shape, x, y)
  {
    gy := y;
    var f := CheckMatrixFits(board, w, h, shape, x, gy + 1);
    while f
      invariant DropRow(board, w, h, shape, x, gy) == DropRow(board, w, h, shape, x, y)
      invariant f == MatrixFits(board, w, h, shape, x, gy + 1)
      decreases h - gy
    {
      FitsAboveFloor(board, w, h, shape, x, gy + 1);
      gy := gy + 1;
      f := CheckMatrixFits(board, w, h, shape, x, gy + 1);
    }
  }

  /** Index of the first kick (dx, dy), from index `i` on, at which `shape` fits, if any (first fit, in
      list order). */
  function FirstFittingKick(board: Board, w: nat, h: nat, shape: Matrix, x: int, y: int,
                            kicks: seq<(int, int)>, i: nat): (r: Option<nat>)
    requires IsBoard(board, w, h) && Is4x4(shape) && i <= |kicks|
    ensures r.Some? ==> i <= r.value < |kicks| && MatrixFits(board, w, h, shape, x + kicks[r.value].0, y + kicks[r.value].1)
    ensures r.Some? ==> forall j :: i <= j < r.value ==> !MatrixFits(board, w, h, shape, x + kicks[j].0, y + kicks[j].1)
    ensures r.None? ==> forall j :: i <= j < |kicks| ==> !MatrixFits(board, w, h, shape, x + kicks[j].0, y + kicks[j].1)
    decreases |kicks| - i
  {
    if i == |kicks| then None
    else if MatrixFits(board, w, h, shape, x + kicks[i].0, y + kicks[i].1) then Some(i)
    else FirstFittingKick(board, w, h, shape, x, y, kicks, i + 1)
  }

  /** The first-fit index is determined by the fit tests: if kick `i` fits and none from
      `start` up to it does, the search from `start` answers `i`. */
  lemma {:induction false} FirstFitAt(board: Board, w: nat, h: nat, shape: Matrix, x: int, y: int,
                   kicks: seq<(int, int)>, start: nat, i: nat)
    requires IsBoard(board, w, h) && Is4x4(shape) && start <= i < |kicks|
    requires MatrixFits(board, w, h, shape, x + kicks[i].0, y + kicks[i].1)
    requires forall j :: start <= j < i ==> !MatrixFits(board, w, h, shape, x + kicks[j].0, y + kicks[j].1)
    ensures FirstFittingKick(board, w, h, shape, x, y, kicks, start) == Some(i)
    decreases i - start
  {
    if start < i {
      FirstFitAt(board, w, h, shape, x, y, kicks, start + 1, i);
    }
  }

  /** When no kick from `start` on fits, the search from `start` answers none. */
  lemma {:induction false} FirstFitNone(board: Board, w: nat, h: nat, shape: Matrix, x: int, y: int,
                                        kicks: seq<(int, int)>, start: nat)
    requires IsBoard(board, w, h) && Is4x4(shape) && start <= |kicks|
    requires forall j :: start <= j < |kicks| ==> !MatrixFits(board, w, h, shape, x + kicks[j].0, y + kicks[j].1)
    ensures FirstFittingKick(board, w, h, shape, x, y, kicks, start) == None
    decreases |kicks| - start
  {
    if start < |kicks| {
      FirstFitNone(board, w, h, shape, x, y, kicks, start + 1);
    }
  }

  /** The kick loop of the rotate operations: try each kick in order and stop at the
      first one where the shape fits. */
  method FindFirstKick(board: Board, w: nat, h: nat, shape: Matrix, x: int, y: int,
                       kicks: seq<(int, int)>) returns (r: Option<nat>)
    requires IsBoard(board, w, h) && Is4x4(shape)
    ensures r == FirstFittingKick(board, w, h, shape, x, y, kicks, 0)
  {
    var i := 0;
    while i < |kicks|
      invariant 0 <= i <= |kicks|
      invariant forall j :: 0 <= j < i ==> !MatrixFits(board, w, h, shape, x + kicks[j].0, y + kicks[j].1)
    {
      var ok := CheckMatrixFits(board, w, h, shape, x + kicks[i].0, y + kicks[i].1);
      if ok {
        FirstFitAt(board, w, h, shape, x, y, kicks, 0, i);
        return Some(i);
      }
      i := i + 1;
    }
    return None;
  }

  /** Board cell (cx, cy) lies under a filled cell of `shape` anchored at (x, y). */
  predicate Covers(shape: Matrix, x: int, y: int, cx: int, cy: int)
    requires Is4x4(shape)
  {
    0 <= cy - y < 4 && 0 <= cx - x < 4 && shape[cy - y][cx - x]
  }

  /** The board with `v` written into every in-bounds cell under the shape; cells
      outside the board (including rows above the top) are dropped. */
  function Stamped(board: Board, w: nat, h: nat, shape: Matrix, x: int, y: int, v: Cell): (nb: Board)
    requires IsBoard(board, w, h) && Is4x4(shape)
    ensures IsBoard(nb, w, h)
  {
    seq(h, r requires 0 <= r < h => seq(w, c requires 0 <= c < w => if Covers(shape, x, y, c, r) then v else board[r][c]))
  }

  /** The double loop of `lock_piece` / `get_buffer` / `get_ghost_buffer`: write `v`
      into each filled cell of the shape that lies inside the board. */
  method StampMatrix(board: Board, w: nat, h: nat, shape: Matrix, x: int, y: int, v: Cell) returns (nb: Board)
    requires IsBoard(board, w, h) && Is4x4(shape)
    ensures nb == Stamped(board, w, h, shape, x, y, v)
  {
    nb := board;
    var ry := 0;
    while ry < 4
      invariant 0 <= ry <= 4 && IsBoard(nb, w, h)
      invariant forall r, c :: 0 <= r < h && 0 <= c < w ==>
                  nb[r][c] == (if Covers(shape, x, y, c, r) && r - y < ry then v else board[r][c])
    {
      var rx := 0;
      while rx < 4
        invariant 0 <= rx <= 4 && IsBoard(nb, w, h)
        invariant forall r, c :: 0 <= r < h && 0 <= c < w ==>
                    nb[r][c] == (if Covers(shape, x, y, c, r) && (r - y < ry || (r - y == ry && c - x < rx)) then v else board[r][c])
      {
        if shape[ry][rx] {
          var cx := x + rx;
          var cy := y + ry;
          if 0 <= cy < h && 0 <= cx < w {
            nb := nb[cy := nb[cy][cx := v]];
          }
        }
        rx := rx + 1;
      }
      ry := ry + 1;
    }
    ghost var want := Stamped(board, w, h, shape, x, y, v);
    forall r | 0 <= r < h
      ensures nb[r] == want[r]
    {
    }
  }

  /** Cell-wise reading of `Stamped`, for callers that compare single cells. */
  lemma StampedCell(board: Board, w: nat, h: nat, shape: Matrix, x: int, y: int, v: Cell, cx: int, cy: int)
    requires IsBoard(board, w, h) && Is4x4(shape)
    requires 0 <= cx < w && 0 <= cy < h
    ensures Stamped(board, w, h, shape, x, y, v)[cy][cx] == if Covers(shape, x, y, cx, cy) then v else board[cy][cx]
  {
  }

  /** Stamping a shape where it fits overwrites only empty cells: every block already on
      the board keeps its id, so locking a piece never erases another. */
  lemma StampKeepsBlocks(board: Board, w: nat, h: nat, shape: Matrix, x: int, y: int, v: Cell)
    requires IsBoard(board, w, h) && Is4x4(shape) && MatrixFits(board, w, h, shape, x, y)
    ensures forall cy, cx :: 0 <= cy < h && 0 <= cx < w && board[cy][cx] != Empty ==>
              Stamped(board, w, h, shape, x, y, v)[cy][cx] == board[cy][cx]
  {
    forall cy, cx | 0 <= cy < h && 0 <= cx < w && board[cy][cx] != Empty
      ensures Stamped(board, w, h, shape, x, y, v)[cy][cx] == board[cy][cx]
    {
      if Covers(shape, x, y, cx, cy) {
        assert false;
      }
    }
  }
}
