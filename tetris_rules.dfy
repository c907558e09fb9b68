/** rules/tetris_rules.py: the `RulesEngine` tetromino rules, with precomputed rotation
    tables, SRS-like kick tables (a separate one for "I"), a 7-bag, spawning without a
    collision check and locking without line clearing. */
module TetrisRules {
  import opened Cells
  import opened Bag
  import opened Tetromino

  // ---------------------------------------------------------------------------
  // Rotation tables

  /** `rotate_cw` applied n times. */
  function Turned(m: Matrix, n: nat): (r: Matrix)
    requires Is4x4(m)
    ensures Is4x4(r)
  {
    if n == 0 then m else RotateCw(Turned(m, n - 1))
  }

  /** `PIECES[k][rot]`: rotation state `rot` of piece `k`, the base shape turned `rot`
      times. */
  function Piece(k: char, rot: nat): (m: Matrix)
    requires k in Keys && rot < 4
    ensures Is4x4(m)
  {
    Turned(Base(k), rot)
  }

  lemma {:induction false} TurnedKeepsCount(m: Matrix, n: nat)
    requires Is4x4(m)
    ensures CellCount(Turned(m, n)) == CellCount(m)
  {
    if n > 0 {
      TurnedKeepsCount(m, n - 1);
      RotateCwKeepsCount(Turned(m, n - 1));
    }
  }

  /** Every rotation state of every piece has exactly four cells. */
  lemma PieceHasFourCells(k: char, rot: nat)
    requires k in Keys && rot < 4
    ensures CellCount(Piece(k, rot)) == 4
  {
    TurnedKeepsCount(Base(k), rot);
    BaseHasFourCells(k);
  }

  /** The four states form a cycle under `rotate_cw`: turning state `rot` gives state
      `(rot + 1) % 4`, in particular state 3 turns back into state 0. */
  lemma PieceTurnsToNext(k: char, rot: nat)
    requires k in Keys && rot < 4
    ensures RotateCw(Piece(k, rot)) == Piece(k, (rot + 1) % 4)
  {
    if rot == 3 {
      RotateCwFourTimes(Base(k));
    }
  }

  type Kick = (int, int)

  /** `SRS_KICKS`: the kicks of a rotation transition (from, to), if the table lists
      it. */
  function SrsKicks(from: int, to: int): Option<seq<Kick>>
  {
    if (from, to) == (0, 1) then Some([(0, 0), (-1, 0), (-1, 1), (0, -2), (-1, -2)])
    else if (from, to) == (1, 0) then Some([(0, 0), (1, 0), (1, -1), (0, 2), (1, 2)])
    else if (from, to) == (1, 2) then Some([(0, 0), (-1, 0), (-1, 1), (0, -2), (-1, -2)])
    else if (from, to) == (2, 1) then Some([(0, 0), (1, 0), (1, -1), (0, 2), (1, 2)])
    else if (from, to) == (2, 3) then Some([(0, 0), (1, 0), (1, 1), (0, -2), (1, -2)])
    else if (from, to) == (3, 2) then Some([(0, 0), (-1, 0), (-1, -1), (0, 2), (-1, 2)])
    else if (from, to) == (3, 0) then Some([(0, 0), (1, 0), (1, 1), (0, -2), (1, -2)])
    else if (from, to) == (0, 3) then Some([(0, 0), (-1, 0), (-1, -1), (0, 2), (-1, 2)])
    else None
  }

  /** `SRS_KICKS_I`: the kicks of the "I" piece. */
  function SrsKicksI(from: int, to: int): Option<seq<Kick>>
  {
    if (from, to) == (0, 1) then Some([(0, 0), (-2, 0), (1, 0), (-2, -1), (1, 2)])
    else if (from, to) == (1, 0) then Some([(0, 0), (2, 0), (-1, 0), (2, 1), (-1, -2)])
    else if (from, to) == (1, 2) then Some([(0, 0), (-1, 0), (2, 0), (-1, 2), (2, -1)])
    else if (from, to) == (2, 1) then Some([(0, 0), (1, 0), (-2, 0), (1, -2), (-2, 1)])
    else if (from, to) == (2, 3) then Some([(0, 0), (2, 0), (-1, 0), (2, 1), (-1, -2)])
    else if (from, to) == (3, 2) then Some([(0, 0), (-2, 0), (1, 0), (-2, -1), (1, 2)])
    else if (from, to) == (3, 0) then Some([(0, 0), (1, 0), (-2, 0), (1, -2), (-2, 1)])
    else if (from, to) == (0, 3) then Some([(0, 0), (-1, 0), (2, 0), (-1, 2), (2, -1)])
    else None
  }

  /** The eight transitions between neighbouring rotation states. */
  predicate IsTransition(from: int, to: int)
  {
    0 <= from < 4 && 0 <= to < 4 && (to == (from + 1) % 4 || from == (to + 1) % 4)
  }

  /** The kick list `try_rotate` uses: the "I" table for "I", the common table
      otherwise, and `[(0, 0)]` for a transition the table does not list. */
  function KickTable(current: char, rot: int, newRot: int): (kicks: seq<Kick>)
  {
    match (if current == 'I' then SrsKicksI(rot, newRot) else SrsKicks(rot, newRot))
    case Some(k) => k
    case None => [(0, 0)]
  }

  /** Both tables list exactly the eight transitions, each with five kicks starting at
      (0, 0). */
  lemma KickTablesShape(from: int, to: int)
    ensures SrsKicks(from, to).Some? <==> IsTransition(from, to)
    ensures SrsKicksI(from, to).Some? <==> IsTransition(from, to)
    ensures SrsKicks(from, to).Some? ==> |SrsKicks(from, to).value| == 5 && SrsKicks(from, to).value[0] == (0, 0)
    ensures SrsKicksI(from, to).Some? ==> |SrsKicksI(from, to).value| == 5 && SrsKicksI(from, to).value[0] == (0, 0)
  {
  }

  /** Every kick list `try_rotate` can use starts with (0, 0); from every rotation state
      the clockwise transition is listed, so it tries five kicks and never falls back to
      `[(0, 0)]`. */
  lemma ClockwiseKicksListed(current: char, rot: int)
    requires 0 <= rot < 4
    ensures var kicks := KickTable(current, rot, (rot + 1) % 4);
            && kicks == (if current == 'I' then SrsKicksI(rot, (rot + 1) % 4) else SrsKicks(rot, (rot + 1) % 4)).value
            && |kicks| == 5 && kicks[0] == (0, 0)
  {
    KickTablesShape(rot, (rot + 1) % 4);
  }

  // ---------------------------------------------------------------------------
  // The cell lists of get_current_cells / get_ghost_cells / get_preview_cells

  /** The (x, y, tag) triples the 4x4 double loop appends for the first `n` cells of the
      bitmap, row by row. */
  function ShapeCells(shape: Matrix, x: int, y: int, tag: char, n: nat): seq<(int, int, char)>
    requires Is4x4(shape) && n <= 16
  {
    if n == 0 then []
    else
      var ry, rx := (n - 1) / 4, (n - 1) % 4;
      ShapeCells(shape, x, y, tag, n - 1) + (if shape[ry][rx] then [(x + rx, y + ry, tag)] else [])
  }

  /** Every listed triple is a filled cell among the first `n`, shifted by (x, y), with
      the tag. */
  lemma {:induction false} ShapeCellsSound(shape: Matrix, x: int, y: int, tag: char, n: nat, t: (int, int, char))
    requires Is4x4(shape) && n <= 16
    requires t in ShapeCells(shape, x, y, tag, n)
    ensures t.2 == tag && Covers(shape, x, y, t.0, t.1) && 4 * (t.1 - y) + (t.0 - x) < n
  {
    var ry, rx := (n - 1) / 4, (n - 1) % 4;
    if t in ShapeCells(shape, x, y, tag, n - 1) {
      ShapeCellsSound(shape, x, y, tag, n - 1, t);
    } else {
      assert t == (x + rx, y + ry, tag);
    }
  }

  /** Every filled cell among the first `n` is listed, shifted by (x, y), with the tag. */
  lemma {:induction false} ShapeCellsComplete(shape: Matrix, x: int, y: int, tag: char, n: nat, ry: int, rx: int)
    requires Is4x4(shape) && n <= 16
    requires 0 <= ry < 4 && 0 <= rx < 4 && 4 * ry + rx < n && shape[ry][rx]
    ensures (x + rx, y + ry, tag) in ShapeCells(shape, x, y, tag, n)
  {
    if 4 * ry + rx < n - 1 {
      ShapeCellsComplete(shape, x, y, tag, n - 1, ry, rx);
    } else {
      assert (n - 1) / 4 == ry && (n - 1) % 4 == rx;
    }
  }

  /** The full list holds exactly the covered board cells, each tagged. */
  lemma ShapeCellsExact(shape: Matrix, x: int, y: int, tag: char, t: (int, int, char))
    requires Is4x4(shape)
    ensures t in ShapeCells(shape, x, y, tag, 16) <==> t.2 == tag && Covers(shape, x, y, t.0, t.1)
  {
    if t in ShapeCells(shape, x, y, tag, 16) {
      ShapeCellsSound(shape, x, y, tag, 16, t);
    }
    if t.2 == tag && Covers(shape, x, y, t.0, t.1) {
      ShapeCellsComplete(shape, x, y, tag, 16, t.1 - y, t.0 - x);
    }
  }

  lemma ShapeCellsRow(shape: Matrix, x: int, y: int, tag: char, r: nat)
    requires Is4x4(shape) && r < 4
    ensures |ShapeCells(shape, x, y, tag, 4 * r + 4)| == |ShapeCells(shape, x, y, tag, 4 * r)| + RowCount(shape[r])
  {
    var n := 4 * r;
    assert (n + 3) / 4 == r && (n + 3) % 4 == 3;
    assert (n + 2) / 4 == r && (n + 2) % 4 == 2;
    assert (n + 1) / 4 == r && (n + 1) % 4 == 1;
    assert n / 4 == r && n % 4 == 0;
    assert |ShapeCells(shape, x, y, tag, n + 1)| == |ShapeCells(shape, x, y, tag, n)| + Bit(shape[r][0]);
    assert |ShapeCells(shape, x, y, tag, n + 2)| == |ShapeCells(shape, x, y, tag, n + 1)| + Bit(shape[r][1]);
    assert |ShapeCells(shape, x, y, tag, n + 3)| == |ShapeCells(shape, x, y, tag, n + 2)| + Bit(shape[r][2]);
    assert |ShapeCells(shape, x, y, tag, n + 4)| == |ShapeCells(shape, x, y, tag, n + 3)| + Bit(shape[r][3]);
  }

  /** The list has one entry per filled cell. */
  lemma ShapeCellsCount(shape: Matrix, x: int, y: int, tag: char)
    requires Is4x4(shape)
    ensures |ShapeCells(shape, x, y, tag, 16)| == CellCount(shape)
  {
    ShapeCellsRow(shape, x, y, tag, 0);
    ShapeCellsRow(shape, x, y, tag, 1);
    ShapeCellsRow(shape, x, y, tag, 2);
    ShapeCellsRow(shape, x, y, tag, 3);
  }

  lemma ShapeCellsStep(shape: Matrix, x: int, y: int, tag: char, ry: nat, rx: nat)
    requires Is4x4(shape) && ry < 4 && rx < 4
    ensures ShapeCells(shape, x, y, tag, 4 * ry + rx + 1)
            == ShapeCells(shape, x, y, tag, 4 * ry + rx) + (if shape[ry][rx] then [(x + rx, y + ry, tag)] else [])
  {
    assert (4 * ry + rx) / 4 == ry && (4 * ry + rx) % 4 == rx;
  }

  /** The double loop of the `get_*_cells` queries. */
  method CollectCells(shape: Matrix, x: int, y: int, tag: char) returns (out: seq<(int, int, char)>)
    requires Is4x4(shape)
    ensures out == ShapeCells(shape, x, y, tag, 16)
  {
    out := [];
    var ry := 0;
    while ry < 4
      invariant 0 <= ry <= 4
      invariant out == ShapeCells(shape, x, y, tag, 4 * ry)
    {
      var rx := 0;
      while rx < 4
        invariant 0 <= rx <= 4
        invariant out == ShapeCells(shape, x, y, tag, 4 * ry + rx)
      {
        ShapeCellsStep(shape, x, y, tag, ry, rx);
        if shape[ry][rx] {
          out := out + [(x + rx, y + ry, tag)];
        }
        rx := rx + 1;
      }
      ry := ry + 1;
    }
  }

  // ---------------------------------------------------------------------------
  // The engine as a value

  /** Every field `RulesEngine` updates. `current` is `None` only inside the
      constructor, before the first spawn. */
  datatype RState = RState(
    board: Board, bag: seq<char>, current: Option<char>, rotation: int, x: int, y: int, next: Option<char>)

  /** The bag, the preview and the current piece hold piece ids. */
  predicate IdsOk(s: RState)
  {
    && (forall i :: 0 <= i < |s.bag| ==> s.bag[i] in Keys)
    && (s.next.Some? ==> s.next.value in Keys)
    && (s.current.Some? ==> s.current.value in Keys)
  }

  /** The invariant of a constructed engine. */
  predicate Inv(w: nat, h: nat, s: RState)
  {
    IsBoard(s.board, w, h) && IdsOk(s) && s.current.Some? && 0 <= s.rotation < 4
  }

  /** `_refill_bag`: an empty bag becomes the shuffle `perm`. */
  function Refilled(s: RState, perm: seq<char>): (t: RState)
    requires IdsOk(s) && IsShuffleOf(perm, Keys)
    ensures IdsOk(t) && t.bag != []
  {
    ShuffleIds(perm);
    s.(bag := Refill(s.bag, perm))
  }

  lemma ShuffleIds(perm: seq<char>)
    requires IsShuffleOf(perm, Keys)
    ensures |perm| == 7
    ensures forall i :: 0 <= i < |perm| ==> perm[i] in Keys
  {
    assert |perm| == |multiset(perm)| == 7;
    forall i | 0 <= i < |perm|
      ensures perm[i] in Keys
    {
      assert perm[i] in multiset(perm);
    }
  }

  /** The first branch point of `spawn_piece`: with no preview the current id is
      popped from the bag, otherwise the preview becomes current. */
  function TakeCurrent(s: RState): (t: RState)
    requires IdsOk(s) && s.bag != []
    ensures IdsOk(t) && t.current.Some?
  {
    if s.next.None? then s.(current := Some(s.bag[|s.bag| - 1]), bag := s.bag[..|s.bag| - 1])
    else s.(current := s.next)
  }

  /** `self.next_piece = self.bag.pop()`. */
  function TakeNext(s: RState): (t: RState)
    requires IdsOk(s) && s.bag != []
    ensures IdsOk(t) && t.next.Some?
  {
    s.(next := Some(s.bag[|s.bag| - 1]), bag := s.bag[..|s.bag| - 1])
  }

  /** `spawn_piece`: refill (from `p1` if empty), take the current id, refill (from
      `p2` if empty), pop the preview, and place the piece in rotation 0 at column
      width//2 - 2, row -1. */
  function Spawned(w: nat, s: RState, p1: seq<char>, p2: seq<char>): (t: RState)
    requires IdsOk(s) && IsShuffleOf(p1, Keys) && IsShuffleOf(p2, Keys)
    ensures IdsOk(t) && t.current.Some? && t.next.Some? && t.rotation == 0
  {
    TakeNext(Refilled(TakeCurrent(Refilled(s, p1)), p2)).(rotation := 0, x := w / 2 - 2, y := -1)
  }

  /** The shape of the current piece. */
  function Shape(s: RState): (m: Matrix)
    requires IdsOk(s) && s.current.Some? && 0 <= s.rotation < 4
    ensures Is4x4(m)
  {
    Piece(s.current.value, s.rotation)
  }

  /** `fits(x, y, rot)` for the current piece. */
  predicate Fits(w: nat, h: nat, s: RState, x: int, y: int, rot: int)
    requires Inv(w, h, s) && 0 <= rot < 4
  {
    MatrixFits(s.board, w, h, Piece(s.current.value, rot), x, y)
  }

  /** A rotation to state `newRot`, whose cells are `shape`, with a kick list: the first
      kick where the shape fits, or no change. */
  function RotatedWith(w: nat, h: nat, s: RState, newRot: int, shape: Matrix, kicks: seq<Kick>): (t: RState)
    requires Inv(w, h, s) && 0 <= newRot < 4 && Is4x4(shape)
    ensures Inv(w, h, t)
  {
    var k := FirstFittingKick(s.board, w, h, shape, s.x, s.y, kicks, 0);
    if k.None? then s
    else s.(rotation := newRot, x := s.x + kicks[k.value].0, y := s.y + kicks[k.value].1)
  }

  /** `try_rotate`: the next rotation state at the first kick of the table where it
      fits, or no change. */
  function Rotated(w: nat, h: nat, s: RState): (t: RState)
    requires Inv(w, h, s)
    ensures Inv(w, h, t)
  {
    var newRot := (s.rotation + 1) % 4;
    RotatedWith(w, h, s, newRot, Piece(s.current.value, newRot), KickTable(s.current.value, s.rotation, newRot))
  }

  /** The writing loop of `lock_piece`: the current id in every in-bounds cell of the
      piece; cells above the top or outside the walls are dropped. */
  function Placed(w: nat, h: nat, s: RState): (t: RState)
    requires Inv(w, h, s)
    ensures Inv(w, h, t)
  {
    s.(board := Stamped(s.board, w, h, Shape(s), s.x, s.y, Block(s.current.value)))
  }

  /** `lock_piece`: write the piece, then spawn; no line clearing. */
  function Locked(w: nat, h: nat, s: RState, p1: seq<char>, p2: seq<char>): (t: RState)
    requires Inv(w, h, s) && IsShuffleOf(p1, Keys) && IsShuffleOf(p2, Keys)
    ensures Inv(w, h, t)
  {
    Spawned(w, Placed(w, h, s), p1, p2)
  }

  /** The landing row of the ghost: from y, keep moving down while the next row fits. */
  function GhostRow(w: nat, h: nat, s: RState): int
    requires Inv(w, h, s)
  {
    PieceHasFourCells(s.current.value, s.rotation);
    CountHasCell(Shape(s));
    DropRow(s.board, w, h, Shape(s), s.x, s.y)
  }

  /** `get_ghost_cells`: the current piece's cells at the landing row, tagged with the
      lower-case id. */
  function GhostCells(w: nat, h: nat, s: RState): seq<(int, int, char)>
    requires Inv(w, h, s)
  {
    ShapeCells(Shape(s), s.x, GhostRow(w, h, s), Lower(s.current.value), 16)
  }

  /** `get_preview_cells`: rotation 0 of the preview at (width//2 - 2, 0), tagged with
      the lower-case id, or nothing without a preview. */
  function PreviewCells(w: nat, s: RState): seq<(int, int, char)>
    requires IdsOk(s)
  {
    if s.next.None? then []
    else ShapeCells(Piece(s.next.value, 0), w / 2 - 2, 0, Lower(s.next.value), 16)
  }

  // ---------------------------------------------------------------------------
  // Properties

  /** `spawn_piece` places the new piece in rotation 0 at column width//2 - 2, row -1;
      it is the old preview when there was one; it always leaves a preview; the board is
      carried over. */
  lemma SpawnFacts(w: nat, s: RState, p1: seq<char>, p2: seq<char>)
    requires IdsOk(s) && IsShuffleOf(p1, Keys) && IsShuffleOf(p2, Keys)
    ensures var t := Spawned(w, s, p1, p2);
            && t.rotation == 0 && t.x == w / 2 - 2 && t.y == -1 && t.next.Some?
            && (s.next.Some? ==> t.current == s.next)
            && t.board == s.board
  {
    var c := TakeCurrent(Refilled(s, p1));
    assert c.board == s.board && (s.next.Some? ==> c.current == s.next);
  }

  /** `spawn_piece` does not look at the board: there is no collision check, so any
      board gives the same spawn. */
  lemma SpawnIgnoresBoard(w: nat, s: RState, p1: seq<char>, p2: seq<char>, b: Board)
    requires IdsOk(s) && IsShuffleOf(p1, Keys) && IsShuffleOf(p2, Keys)
    ensures Spawned(w, s.(board := b), p1, p2) == Spawned(w, s, p1, p2).(board := b)
  {
    var r1 := Refilled(s, p1);
    assert Refilled(s.(board := b), p1) == r1.(board := b);
    var c := TakeCurrent(r1);
    assert TakeCurrent(r1.(board := b)) == c.(board := b);
    var r2 := Refilled(c, p2);
    assert Refilled(c.(board := b), p2) == r2.(board := b);
    assert TakeNext(r2.(board := b)) == TakeNext(r2).(board := b);
  }

  /** The ids `spawn_piece` pops, in order. */
  function Draws(s: RState, p1: seq<char>): seq<char>
    requires IdsOk(s) && IsShuffleOf(p1, Keys)
  {
    var r := Refilled(s, p1);
    if s.next.None? then [r.bag[|r.bag| - 1]] else []
  }

  lemma ConcatAssoc(a: seq<char>, b: seq<char>, c: seq<char>)
    ensures a + b + c == a + (b + c)
  {
  }

  /** The first half of a spawn keeps the blocks: the refill, then the pop of the
      current id when there was no preview. */
  lemma TakeCurrentKeepsFair(s: RState, p1: seq<char>, drawn: seq<char>)
    requires IdsOk(s) && IsShuffleOf(p1, Keys)
    requires PermBlocks(drawn + Rev(s.bag), Keys)
    ensures PermBlocks(drawn + Draws(s, p1) + Rev(TakeCurrent(Refilled(s, p1)).bag), Keys)
  {
    if s.next.None? {
      DrawKeepsBlocks(drawn, s.bag, p1, Keys);
    } else {
      RefillKeepsBlocks(drawn, s.bag, p1, Keys);
      assert drawn + Draws(s, p1) == drawn;
    }
  }

  /** The second half of a spawn keeps the blocks: the refill, then the pop of the new
      preview. */
  lemma TakeNextKeepsFair(s: RState, p2: seq<char>, drawn: seq<char>)
    requires IdsOk(s) && IsShuffleOf(p2, Keys)
    requires PermBlocks(drawn + Rev(s.bag), Keys)
    ensures var t := TakeNext(Refilled(s, p2));
            PermBlocks(drawn + [t.next.value] + Rev(t.bag), Keys)
  {
    DrawKeepsBlocks(drawn, s.bag, p2, Keys);
  }

  /** Fairness of the 7-bag, one spawn at a time: if the ids drawn so far followed by
      the bag in `pop` order are whole shuffles of the seven ids, they still are after
      the spawn's draws (the current id when there was no preview, then the new
      preview). */
  lemma SpawnKeepsFair(w: nat, s: RState, p1: seq<char>, p2: seq<char>, drawn: seq<char>)
    requires IdsOk(s) && IsShuffleOf(p1, Keys) && IsShuffleOf(p2, Keys)
    requires PermBlocks(drawn + Rev(s.bag), Keys)
    ensures var t := Spawned(w, s, p1, p2);
            PermBlocks(drawn + Draws(s, p1) + [t.next.value] + Rev(t.bag), Keys)
  {
    TakeCurrentKeepsFair(s, p1, drawn);
    var c := TakeCurrent(Refilled(s, p1));
    TakeNextKeepsFair(c, p2, drawn + Draws(s, p1));
    var n := TakeNext(Refilled(c, p2));
    assert Spawned(w, s, p1, p2).next == n.next && Spawned(w, s, p1, p2).bag == n.bag;
  }

  /** A rotation commits the new state at the FIRST kick, in list order, where its shape
      fits, moving by that kick. `try_rotate` is the instance with the next state, its
      shape and its kick table. */
  lemma RotateCommitsFirstFit(w: nat, h: nat, s: RState, newRot: int, shape: Matrix, kicks: seq<Kick>, i: nat)
    requires Inv(w, h, s) && 0 <= newRot < 4 && Is4x4(shape) && i < |kicks|
    requires MatrixFits(s.board, w, h, shape, s.x + kicks[i].0, s.y + kicks[i].1)
    requires forall j :: 0 <= j < i ==> !MatrixFits(s.board, w, h, shape, s.x + kicks[j].0, s.y + kicks[j].1)
    ensures RotatedWith(w, h, s, newRot, shape, kicks) == s.(rotation := newRot, x := s.x + kicks[i].0, y := s.y + kicks[i].1)
  {
    FirstFitAt(s.board, w, h, shape, s.x, s.y, kicks, 0, i);
  }

  /** When no kick fits, a rotation changes nothing. */
  lemma RotateFailsUnchanged(w: nat, h: nat, s: RState, newRot: int, shape: Matrix, kicks: seq<Kick>)
    requires Inv(w, h, s) && 0 <= newRot < 4 && Is4x4(shape)
    requires forall j :: 0 <= j < |kicks| ==> !MatrixFits(s.board, w, h, shape, s.x + kicks[j].0, s.y + kicks[j].1)
    ensures RotatedWith(w, h, s, newRot, shape, kicks) == s
  {
    var k := FirstFittingKick(s.board, w, h, shape, s.x, s.y, kicks, 0);
    assert k.None?;
  }

  /** `lock_piece` writes the current id into exactly the in-bounds cells under the
      piece and does not clear lines: every other cell, and every full row, stays. */
  lemma LockWritesOnlyPiece(w: nat, h: nat, s: RState, cx: int, cy: int)
    requires Inv(w, h, s) && 0 <= cx < w && 0 <= cy < h
    ensures Placed(w, h, s).board[cy][cx] == if Covers(Shape(s), s.x, s.y, cx, cy) then Block(s.current.value) else s.board[cy][cx]
    ensures !HasGap(s.board[cy]) ==> !HasGap(Placed(w, h, s).board[cy])
  {
    var nb := Placed(w, h, s).board;
    forall c | 0 <= c < w
      ensures nb[cy][c] != Empty || s.board[cy][c] == Empty
    {
      StampedCell(s.board, w, h, Shape(s), s.x, s.y, Block(s.current.value), c, cy);
    }
    if HasGap(nb[cy]) {
      var c :| 0 <= c < |nb[cy]| && nb[cy][c] == Empty;
      assert s.board[cy][c] == Empty;
    }
  }

  /** After locking, the board is the placed board (the spawn keeps it). */
  lemma LockKeepsPlacedBoard(w: nat, h: nat, s: RState, p1: seq<char>, p2: seq<char>)
    requires Inv(w, h, s) && IsShuffleOf(p1, Keys) && IsShuffleOf(p2, Keys)
    ensures Locked(w, h, s, p1, p2).board == Placed(w, h, s).board
    ensures Locked(w, h, s, p1, p2).next.Some?
  {
    SpawnFacts(w, Placed(w, h, s), p1, p2);
  }

  /** The landing row is at or below the piece, the piece fits on every row down to it,
      and not on the row below it. */
  lemma GhostRowFacts(w: nat, h: nat, s: RState)
    requires Inv(w, h, s)
    ensures var gy := GhostRow(w, h, s);
            && gy >= s.y && !Fits(w, h, s, s.x, gy + 1, s.rotation)
            && (forall k :: s.y < k <= gy ==> Fits(w, h, s, s.x, k, s.rotation))
  {
  }

  /** `try_rotate` either turns the piece to the next rotation state or changes
      nothing. */
  lemma RotatedOutcome(w: nat, h: nat, s: RState)
    requires Inv(w, h, s)
    ensures var t := Rotated(w, h, s);
            t == s || (t.rotation == (s.rotation + 1) % 4 && t.rotation != s.rotation)
  {
    var newRot := (s.rotation + 1) % 4;
    assert newRot == if s.rotation == 3 then 0 else s.rotation + 1;
    var shape, kicks := Piece(s.current.value, newRot), KickTable(s.current.value, s.rotation, newRot);
    assert Rotated(w, h, s) == RotatedWith(w, h, s, newRot, shape, kicks);
  }

  /** The constructor's refill and first spawn from an empty engine: the current piece
      and the preview are the last two ids of the shuffle, the rest stays in the bag. */
  lemma FirstSpawn(w: nat, h: nat, perm: seq<char>)
    requires IsShuffleOf(perm, Keys)
    ensures var s0 := RState(EmptyRows(w, h), [], None, 0, 0, 0, None);
            Spawned(w, Refilled(s0, perm), perm, perm)
            == RState(EmptyRows(w, h), perm[..5], Some(perm[6]), 0, w / 2 - 2, -1, Some(perm[5]))
  {
    ShuffleIds(perm);
    var e := EmptyRows(w, h);
    var s1 := Refilled(RState(e, [], None, 0, 0, 0, None), perm);
    assert s1 == RState(e, perm, None, 0, 0, 0, None);
    var s2 := TakeCurrent(s1);
    assert s2 == RState(e, perm[..6], Some(perm[6]), 0, 0, 0, None);
    assert Refilled(s2, perm) == s2;
    PrefixOfPrefix(perm, 6, 5);
    assert TakeNext(s2) == RState(e, perm[..5], Some(perm[6]), 0, 0, 0, Some(perm[5]));
  }

  /** The ghost is the current piece, in its rotation and column, at the first row at or
      below y from which one more row down does not fit; its cells carry the lower-case
      id. */
  lemma GhostFacts(w: nat, h: nat, s: RState, t: (int, int, char))
    requires Inv(w, h, s)
    ensures var gy := GhostRow(w, h, s);
            && gy >= s.y && !Fits(w, h, s, s.x, gy + 1, s.rotation)
            && (forall k :: s.y < k <= gy ==> Fits(w, h, s, s.x, k, s.rotation))
    ensures t in GhostCells(w, h, s) <==> t.2 == Lower(s.current.value) && Covers(Shape(s), s.x, GhostRow(w, h, s), t.0, t.1)
    ensures |GhostCells(w, h, s)| == 4
  {
    GhostRowFacts(w, h, s);
    ShapeCellsExact(Shape(s), s.x, GhostRow(w, h, s), Lower(s.current.value), t);
    ShapeCellsCount(Shape(s), s.x, GhostRow(w, h, s), Lower(s.current.value));
    PieceHasFourCells(s.current.value, s.rotation);
  }

  /** The preview is empty exactly when there is no preview id; otherwise it is the four
      cells of rotation 0 of that piece at (width//2 - 2, 0), tagged lower-case. */
  lemma PreviewFacts(w: nat, s: RState, t: (int, int, char))
    requires IdsOk(s)
    ensures PreviewCells(w, s) == [] <==> s.next.None?
    ensures s.next.Some? ==>
              (t in PreviewCells(w, s) <==> t.2 == Lower(s.next.value) && Covers(Piece(s.next.value, 0), w / 2 - 2, 0, t.0, t.1))
  {
    if s.next.Some? {
      var k := s.next.value;
      ShapeCellsExact(Piece(k, 0), w / 2 - 2, 0, Lower(k), t);
      ShapeCellsCount(Piece(k, 0), w / 2 - 2, 0, Lower(k));
      PieceHasFourCells(k, 0);
    }
  }

  // ---------------------------------------------------------------------------
  // The engine

  class RulesEngine {
    const width: nat
    const height: nat
    /** The fields `RulesEngine` updates (board, bag, current id, rotation, position,
        preview id), kept together. */
    var st: RState

    ghost predicate Valid()
      reads this`st
    {
      Inv(width, height, st)
    }

    /** `__init__`: an empty board and bag, then `_refill_bag` and `spawn_piece` (the
        shuffle is supplied as `perm`). */
    constructor (width: nat := 10, height: nat := 20, perm: seq<char>)
      requires IsShuffleOf(perm, Keys)
      ensures this.width == width && this.height == height
      ensures st.board == EmptyRows(width, height) && st.current == Some(perm[6]) && st.next == Some(perm[5])
      ensures st.bag == perm[..5] && st.rotation == 0 && st.x == width / 2 - 2 && st.y == -1
      ensures Valid()
    {
      this.width := width;
      this.height := height;
      st := RState(EmptyRows(width, height), [], None, 0, 0, 0, None);
      new;
      FirstSpawn(width, height, perm);
      RefillBag(perm);
      SpawnPiece(perm, perm);
    }

    /** `_refill_bag`. */
    method RefillBag(perm: seq<char>)
      requires IdsOk(st) && IsShuffleOf(perm, Keys)
      modifies this`st
      ensures st == Refilled(old(st), perm)
    {
      if st.bag == [] {
        st := st.(bag := perm);
      }
    }

    /** `bag.pop()`. */
    method PopBag() returns (k: char)
      requires st.bag != []
      modifies this`st
      ensures k == old(st.bag)[|old(st.bag)| - 1]
      ensures st == old(st).(bag := old(st.bag)[..|old(st.bag)| - 1])
    {
      k := st.bag[|st.bag| - 1];
      st := st.(bag := st.bag[..|st.bag| - 1]);
    }

    /** `spawn_piece`, with the shuffles for its two possible refills. */
    method SpawnPiece(p1: seq<char>, p2: seq<char>)
      requires IdsOk(st) && IsShuffleOf(p1, Keys) && IsShuffleOf(p2, Keys)
      modifies this`st
      ensures st == Spawned(width, old(st), p1, p2)
    {
      RefillBag(p1);
      ghost var s1 := st;
      if st.next.None? {
        var k := PopBag();
        st := st.(current := Some(k));
      } else {
        st := st.(current := st.next);
      }
      assert st == TakeCurrent(s1);
      RefillBag(p2);
      ghost var s2 := st;
      var k := PopBag();
      st := st.(next := Some(k));
      assert st == TakeNext(s2);
      st := st.(rotation := 0, x := width / 2 - 2, y := -1);
    }

    /** `fits(x, y, rot)`: the double loop over the current piece's rotation state. */
    method CheckFits(x: int, y: int, rot: int) returns (ok: bool)
      requires Valid() && 0 <= rot < 4
      ensures ok == Fits(width, height, st, x, y, rot)
    {
      ok := CheckMatrixFits(st.board, width, height, Piece(st.current.value, rot), x, y);
    }

    /** `try_rotate`: try the kicks of the table for the next rotation state and report
        whether the piece rotated. */
    method TryRotate() returns (ok: bool)
      requires Valid()
      modifies this`st
      ensures st == Rotated(width, height, old(st))
      ensures ok <==> st.rotation != old(st.rotation)
      ensures Valid()
    {
      var newRot := (st.rotation + 1) % 4;
      var kicks := KickTable(st.current.value, st.rotation, newRot);
      ok := TryKicks(newRot, Piece(st.current.value, newRot), kicks);
    }

    /** The loop of `try_rotate`: try the kicks in order and commit rotation state
        `newRot`, with cells `shape`, at the first one where it fits. */
    method TryKicks(newRot: int, shape: Matrix, kicks: seq<Kick>) returns (ok: bool)
      requires Valid() && 0 <= newRot < 4 && Is4x4(shape)
      modifies this`st
      ensures st == RotatedWith(width, height, old(st), newRot, shape, kicks)
      ensures ok ==> st.rotation == newRot
      ensures !ok ==> st == old(st)
    {
      var k := FindFirstKick(st.board, width, height, shape, st.x, st.y, kicks);
      if k.None? {
        return false;
      }
      var (ox, oy) := kicks[k.value];
      st := st.(rotation := newRot, x := st.x + ox, y := st.y + oy);
      return true;
    }

    /** `lock_piece`: write the piece into its in-bounds cells, then spawn. */
    method LockPiece(p1: seq<char>, p2: seq<char>)
      requires Valid() && IsShuffleOf(p1, Keys) && IsShuffleOf(p2, Keys)
      modifies this`st
      ensures st == Locked(width, height, old(st), p1, p2)
      ensures Valid()
    {
      var nb := StampMatrix(st.board, width, height, Shape(st), st.x, st.y, Block(st.current.value));
      st := st.(board := nb);
      SpawnPiece(p1, p2);
    }

    /** `clear_lines`: remove every row with no empty cell, refill with empty rows on
        top, return how many were removed. */
    method ClearLines() returns (cleared: int)
      requires Valid()
      modifies this`st
      ensures st == old(st).(board := Cleared(old(st.board), width))
      ensures cleared == FullCount(old(st.board))
      ensures Valid()
    {
      var nb;
      nb, cleared := ClearFullRows(st.board, width, height);
      st := st.(board := nb);
    }

    /** `get_current_cells`: the current piece's cells tagged with its id. */
    method GetCurrentCells() returns (out: seq<(int, int, char)>)
      requires Valid()
      ensures out == ShapeCells(Shape(st), st.x, st.y, st.current.value, 16)
      ensures |out| == 4
      ensures forall t :: t in out <==> t.2 == st.current.value && Covers(Shape(st), st.x, st.y, t.0, t.1)
    {
      out := CollectCells(Shape(st), st.x, st.y, st.current.value);
      ShapeCellsCount(Shape(st), st.x, st.y, st.current.value);
      PieceHasFourCells(st.current.value, st.rotation);
      forall t
        ensures t in out <==> t.2 == st.current.value && Covers(Shape(st), st.x, st.y, t.0, t.1)
      {
        ShapeCellsExact(Shape(st), st.x, st.y, st.current.value, t);
      }
    }

    /** `get_ghost_cells`: drop a copy of the piece while the next row fits, and list
        its cells with the lower-case id. */
    method GetGhostCells() returns (out: seq<(int, int, char)>)
      requires Valid()
      ensures out == GhostCells(width, height, st)
    {
      PieceHasFourCells(st.current.value, st.rotation);
      CountHasCell(Shape(st));
      var gy := DropLoop(st.board, width, height, Shape(st), st.x, st.y);
      out := CollectCells(Shape(st), st.x, gy, Lower(st.current.value));
    }

    /** `get_preview_cells`. */
    method GetPreviewCells() returns (out: seq<(int, int, char)>)
      requires Valid()
      ensures out == PreviewCells(width, st)
    {
      if st.next.None? {
        return [];
      }
      var piece := st.next.value;
      out := CollectCells(Piece(piece, 0), width / 2 - 2, 0, Lower(piece));
    }
  }
}
