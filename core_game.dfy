/** tetris_core.py: the self-contained `Game` engine. The piece is a 4x4 bitmap that
    `rotate` replaces by its clockwise rotation, empty cells are `0` (here `Empty`),
    locking clears lines and scores at once, and spawning detects game over.

    The state-changing methods of `Game` are proved against functions on a value
    snapshot of the game (`State`), and the properties of the game are lemmas about
    those functions. */
module CoreGame {
  import opened Cells
  import opened Bag
  import opened Tetromino

  /** The kicks `rotate` tries, in order: centre, one and two columns left/right, up, down. */
  const RotateKicks: seq<(int, int)> := [(0, 0), (-1, 0), (1, 0), (-2, 0), (2, 0), (0, -1), (0, 1)]

  /** Cell marker of injected garbage rows. */
  const GarbageId: char := 'X'

  /** `score_for_clear`: 0/40/100/300/1200 times (level + 1); any count other than
      0..3 (four or more, but also a negative one) takes the last branch. */
  function ScoreForClear(n: int, level: int): int
  {
    if n == 0 then 0
    else if n == 1 then 40 * (level + 1)
    else if n == 2 then 100 * (level + 1)
    else if n == 3 then 300 * (level + 1)
    else 1200 * (level + 1)
  }

  /** The tiered table: clearing more rows at once never scores less, four or more rows
      all score the same, and the points scale with level + 1. */
  lemma ScoreTable(level: int, m: int, n: int)
    requires level >= 0 && 0 <= m <= n
    ensures 0 <= ScoreForClear(m, level) <= ScoreForClear(n, level)
    ensures ScoreForClear(n, level) == 0 <==> n == 0
    ensures n >= 4 ==> ScoreForClear(n, level) == 1200 * (level + 1)
    ensures ScoreForClear(n, level) == ScoreForClear(n, 0) * (level + 1)
  {
  }

  function Max(a: real, b: real): real
  {
    if a >= b then a else b
  }

  // ---------------------------------------------------------------------------
  // Garbage rows

  /** A garbage row: 'X' everywhere except one empty cell at column `hole`. */
  function GarbageRow(w: nat, hole: int): (row: seq<Cell>)
    ensures |row| == w
  {
    seq(w, c => if c == hole then Empty else Block(GarbageId))
  }

  /** For a hole inside the row, the row has exactly one empty cell, at the hole, and
      every other cell is garbage. */
  lemma GarbageRowHasOneHole(w: nat, hole: int)
    requires 0 <= hole < w
    ensures forall c :: 0 <= c < w ==> (GarbageRow(w, hole)[c] == Empty <==> c == hole)
    ensures forall c :: 0 <= c < w && c != hole ==> GarbageRow(w, hole)[c] == Block(GarbageId)
    ensures HasGap(GarbageRow(w, hole))
  {
    assert GarbageRow(w, hole)[hole] == Empty;
  }

  function GarbageRows(w: nat, holes: seq<int>): (rows: Board)
    ensures IsBoard(rows, w, |holes|)
  {
    seq(|holes|, i requires 0 <= i < |holes| => GarbageRow(w, holes[i]))
  }

  /** The board after `add_garbage`: each hole drops the top row and appends a garbage
      row at the bottom, so the board ends as the old rows followed by the new rows,
      minus as many rows from the top as were added. */
  function WithGarbage(b: Board, w: nat, holes: seq<int>): Board
  {
    (b + GarbageRows(w, holes))[|holes|..]
  }

  /** Adding k <= h garbage rows removes exactly the k top rows, keeps the other rows in
      order, and appends the k garbage rows; the board stays w x h. */
  lemma GarbageShape(b: Board, w: nat, h: nat, holes: seq<int>)
    requires IsBoard(b, w, h)
    ensures IsBoard(WithGarbage(b, w, holes), w, h)
    ensures |holes| <= h ==> WithGarbage(b, w, holes) == b[|holes|..] + GarbageRows(w, holes)
    ensures |holes| <= h ==> forall i :: 0 <= i < |holes| ==> WithGarbage(b, w, holes)[h - |holes| + i] == GarbageRow(w, holes[i])
  {
    var all := b + GarbageRows(w, holes);
    forall r | 0 <= r < h
      ensures |WithGarbage(b, w, holes)[r]| == w
    {
      assert WithGarbage(b, w, holes)[r] == all[r + |holes|];
    }
  }

  lemma GarbageStep(b: Board, w: nat, holes: seq<int>, i: nat)
    requires i < |holes| && |b| > 0
    ensures WithGarbage(b, w, holes[..i])[1..] + [GarbageRow(w, holes[i])] == WithGarbage(b, w, holes[..i + 1])
  {
    var g := GarbageRows(w, holes[..i]);
    var g1 := GarbageRows(w, holes[..i + 1]);
    assert g1 == g + [GarbageRow(w, holes[i])];
    assert (b + g1)[i + 1..] == (b + g)[i..][1..] + [GarbageRow(w, holes[i])];
  }

  // ---------------------------------------------------------------------------
  // The game as a value

  /** The constructor arguments; `baseDelay` stands for `level_to_delay(level)`. */
  datatype Config = Config(width: nat, height: nat, level: int, lockDelay: real, baseDelay: real)

  /** Every field `Game` updates. */
  datatype State = State(
    board: Board, score: int, lines: int, bag: seq<char>, next: Option<char>,
    pieceType: char, piece: Matrix, px: int, py: int,
    dropTimer: real, dropDelay: real, lockTimer: real, gameOver: bool, lastCleared: int)

  /** The bag and the preview hold piece ids. */
  predicate IdsOk(s: State)
  {
    (forall i :: 0 <= i < |s.bag| ==> s.bag[i] in Keys) && (s.next.Some? ==> s.next.value in Keys)
  }

  /** What a spawn needs: a w x h board, and piece ids in the bag and the preview. */
  predicate SpawnReady(c: Config, s: State)
  {
    IsBoard(s.board, c.width, c.height) && IdsOk(s)
  }

  /** The invariant of a running game: also the current piece is a four-cell 4x4 bitmap
      with a known id. */
  predicate Inv(c: Config, s: State)
  {
    SpawnReady(c, s) && s.pieceType in Keys && Is4x4(s.piece) && CellCount(s.piece) == 4
  }

  lemma ShuffleHasKeys(perm: seq<char>)
    requires IsShuffleOf(perm, Keys)
    ensures |perm| == 7
    ensures forall i :: 0 <= i < |perm| ==> perm[i] in Keys
  {
    assert |perm| == |multiset(perm)| == 7;
    forall i | 0 <= i < |perm|
      ensures perm[i] in Keys
    {
      assert perm[i] in multiset(perm);
    }
  }

  /** The refill shared by `_fill_bag` and `_spawn_from_bag`: an empty bag becomes the
      shuffle `perm`. */
  function Refilled(s: State, perm: seq<char>): (t: State)
    requires IdsOk(s) && IsShuffleOf(perm, Keys)
    ensures IdsOk(t) && t.bag != []
  {
    ShuffleHasKeys(perm);
    s.(bag := Refill(s.bag, perm))
  }

  /** The preview draw shared by `_fill_bag` and `_spawn_from_bag`: with no preview, the
      last id of the bag is popped into it. */
  function Previewed(s: State): (t: State)
    requires IdsOk(s) && s.bag != []
    ensures IdsOk(t) && t.next.Some?
  {
    if s.next.None? then s.(bag := s.bag[..|s.bag| - 1], next := Some(s.bag[|s.bag| - 1])) else s
  }

  /** `_fill_bag` on a snapshot. */
  function Filled(s: State, perm: seq<char>): (t: State)
    requires IdsOk(s) && IsShuffleOf(perm, Keys)
    ensures IdsOk(t) && t.next.Some?
  {
    Previewed(Refilled(s, perm))
  }

  /** The middle of `_spawn_from_bag`: the preview becomes the current id, and the next
      preview is popped from the bag, or is `None` when the bag is empty. */
  function Promoted(s: State): (t: State)
    requires IdsOk(s) && s.next.Some?
    ensures IdsOk(t) && t.pieceType in Keys
  {
    if s.bag == [] then s.(pieceType := s.next.value, next := None)
    else s.(pieceType := s.next.value, next := Some(s.bag[|s.bag| - 1]), bag := s.bag[..|s.bag| - 1])
  }

  /** The end of `_spawn_from_bag`: the piece of the current id at column
      width//2 - 2, row -1, a reset lock timer, and game over on a collision there. */
  function Placing(c: Config, s: State): (t: State)
    requires SpawnReady(c, s) && s.pieceType in Keys
    ensures Inv(c, t)
  {
    BaseHasFourCells(s.pieceType);
    var x, y := c.width / 2 - 2, -1;
    s.(piece := Base(s.pieceType), px := x, py := y, lockTimer := 0.0,
       gameOver := s.gameOver || !MatrixFits(s.board, c.width, c.height, Base(s.pieceType), x, y))
  }

  /** `_spawn_from_bag` on a snapshot. (It repeats the refill and preview draw of
      `_fill_bag` in its own code; the behaviour is the same.) */
  function Spawned(c: Config, s: State, perm: seq<char>): (t: State)
    requires SpawnReady(c, s) && IsShuffleOf(perm, Keys)
    ensures Inv(c, t) && t.lockTimer == 0.0
  {
    Placing(c, Promoted(Filled(s, perm)))
  }

  /** The board with the current piece's id written into its in-bounds cells. */
  function Placed(c: Config, s: State): (b: Board)
    requires Inv(c, s)
    ensures IsBoard(b, c.width, c.height)
  {
    Stamped(s.board, c.width, c.height, s.piece, s.px, s.py, Block(s.pieceType))
  }

  /** The first part of `lock_piece`: place the piece, clear full rows, add the score
      and the line count. */
  function Scored(c: Config, s: State): (t: State)
    requires Inv(c, s)
    ensures SpawnReady(c, t)
  {
    var placed := Placed(c, s);
    var n := FullCount(placed);
    ClearedShape(placed, c.width, c.height);
    s.(board := Cleared(placed, c.width), lastCleared := n,
       score := s.score + ScoreForClear(n, c.level), lines := s.lines + n)
  }

  /** `lock_piece` on a snapshot: place, clear, score, count, spawn. */
  function Locked(c: Config, s: State, perm: seq<char>): (t: State)
    requires Inv(c, s) && IsShuffleOf(perm, Keys)
    ensures Inv(c, t) && t.lockTimer == 0.0
  {
    Spawned(c, Scored(c, s), perm)
  }

  /** The landing row of the current piece (`get_ghost_y`). */
  function GhostY(c: Config, s: State): int
    requires Inv(c, s)
  {
    CountHasCell(s.piece);
    DropRow(s.board, c.width, c.height, s.piece, s.px, s.py)
  }

  /** `hard_drop` on a snapshot: move to the landing row, then lock. */
  function HardDropped(c: Config, s: State, perm: seq<char>): (t: State)
    requires Inv(c, s) && IsShuffleOf(perm, Keys)
    ensures Inv(c, t)
  {
    Locked(c, s.(py := GhostY(c, s)), perm)
  }

  /** The gravity interval: the level delay, or a tenth of it (at least 0.02) while the
      soft-drop key is held. */
  function GravityDelay(c: Config, softDown: bool): real
  {
    if !softDown then c.baseDelay else Max(0.02, c.baseDelay * 0.1)
  }

  /** A gravity step of `update`: one row down when the piece fits there; otherwise the
      lock timer grows by dt, and the piece locks once it reaches the lock delay. (The
      source zeroes the lock timer after locking; the spawn inside the lock has already
      done so.) */
  function Gravity(c: Config, s: State, dt: real, perm: seq<char>): (t: State)
    requires Inv(c, s) && IsShuffleOf(perm, Keys)
    ensures Inv(c, t)
  {
    if MatrixFits(s.board, c.width, c.height, s.piece, s.px, s.py + 1) then s.(py := s.py + 1, lockTimer := 0.0)
    else if s.lockTimer + dt < c.lockDelay then s.(lockTimer := s.lockTimer + dt)
    else Locked(c, s.(lockTimer := s.lockTimer + dt), perm)
  }

  /** `update(dt, soft_down)` on a snapshot: nothing once the game is over; otherwise
      the drop timer grows by dt, and once it reaches the gravity interval it is zeroed
      and a gravity step happens. */
  function Updated(c: Config, s: State, dt: real, softDown: bool, perm: seq<char>): (t: State)
    requires Inv(c, s) && IsShuffleOf(perm, Keys)
    ensures Inv(c, t)
  {
    if s.gameOver then s
    else if s.dropTimer + dt < GravityDelay(c, softDown) then s.(dropTimer := s.dropTimer + dt)
    else Gravity(c, s.(dropTimer := 0.0), dt, perm)
  }

  /** `move(dx)` on a snapshot: shift by dx columns when the piece fits there (which
      also resets the lock timer), otherwise change nothing. */
  function Moved(c: Config, s: State, dx: int): (t: State)
    requires Inv(c, s)
    ensures Inv(c, t)
  {
    if MatrixFits(s.board, c.width, c.height, s.piece, s.px + dx, s.py) then s.(px := s.px + dx, lockTimer := 0.0)
    else s
  }

  /** `soft_drop` on a snapshot: one row down when the piece fits there. */
  function SoftDropped(c: Config, s: State): (t: State)
    requires Inv(c, s)
    ensures Inv(c, t)
  {
    if MatrixFits(s.board, c.width, c.height, s.piece, s.px, s.py + 1) then s.(py := s.py + 1, lockTimer := 0.0)
    else s
  }

  /** A rotation with a kick list: the clockwise bitmap at the first kick where it fits,
      with a reset lock timer, or no change. */
  function RotatedWith(c: Config, s: State, kicks: seq<(int, int)>): (t: State)
    requires Inv(c, s)
    ensures Inv(c, t)
  {
    RotateCwKeepsCount(s.piece);
    var r := RotateCw(s.piece);
    var k := FirstFittingKick(s.board, c.width, c.height, r, s.px, s.py, kicks, 0);
    if k.None? then s
    else s.(piece := r, px := s.px + kicks[k.value].0, py := s.py + kicks[k.value].1, lockTimer := 0.0)
  }

  /** `rotate` on a snapshot: `RotatedWith` the seven kicks of `rotate`. */
  function Rotated(c: Config, s: State): (t: State)
    requires Inv(c, s)
    ensures Inv(c, t)
  {
    RotatedWith(c, s, RotateKicks)
  }

  lemma EmptyRowsShape(w: nat, h: nat)
    ensures IsBoard(EmptyRows(w, h), w, h)
  {
    ClearedShape([], w, 0);
    assert Cleared([], w) == EmptyRows(w, 0);
  }

  /** The first part of `reset`: empty board, zero score and lines, empty bag, no
      preview. */
  function Emptied(c: Config, s: State): (t: State)
    ensures SpawnReady(c, t)
  {
    EmptyRowsShape(c.width, c.height);
    s.(board := EmptyRows(c.width, c.height), score := 0, lines := 0, bag := [], next := None)
  }

  /** The end of `reset`: zero timers, the level's delay, no game over, nothing cleared. */
  function Restarted(c: Config, s: State): State
  {
    s.(dropTimer := 0.0, dropDelay := c.baseDelay, lockTimer := 0.0, gameOver := false, lastCleared := 0)
  }

  /** `reset` on a snapshot: empty, `_fill_bag`, `_spawn_from_bag`, restart timers. */
  function Reseted(c: Config, s: State, perm: seq<char>): (t: State)
    requires IsShuffleOf(perm, Keys)
    ensures Inv(c, t)
  {
    Restarted(c, Spawned(c, Filled(Emptied(c, s), perm), perm))
  }

  // ---------------------------------------------------------------------------
  // Properties of the snapshot functions

  /** Spawning places the new piece at column width//2 - 2, row -1 with a reset lock
      timer; it is the old preview when there was one; the game is over exactly when it
      was already or the new piece collides there; the preview is left empty only if
      the bag was emptied; board, score and lines are untouched. */
  lemma SpawnFacts(c: Config, s: State, perm: seq<char>)
    requires SpawnReady(c, s) && IsShuffleOf(perm, Keys)
    ensures var t := Spawned(c, s, perm);
            && t.px == c.width / 2 - 2 && t.py == -1 && t.lockTimer == 0.0
            && t.piece == Base(t.pieceType)
            && (s.next.Some? ==> t.pieceType == s.next.value)
            && (t.gameOver <==> s.gameOver || !MatrixFits(s.board, c.width, c.height, t.piece, t.px, t.py))
            && (t.next.None? ==> t.bag == [])
            && t.board == s.board && t.score == s.score && t.lines == s.lines && t.lastCleared == s.lastCleared
  {
  }

  /** A reset does not depend on the state before it. It starts an empty w x h board
      with zero score and lines; the current piece is the last id of the shuffle, the
      preview the one before and the bag the first five (`pop` takes from the end); the
      piece is at column width//2 - 2, row -1; the timers are zero and the game is not
      over, even if the spawned piece collides (the flag is cleared after the spawn). */
  lemma ResetFacts(c: Config, s: State, s': State, perm: seq<char>)
    requires IsShuffleOf(perm, Keys)
    ensures Reseted(c, s, perm) == Reseted(c, s', perm)
    ensures var t := Reseted(c, s, perm);
            && t.board == EmptyRows(c.width, c.height) && t.score == 0 && t.lines == 0
            && t.pieceType == perm[6] && t.piece == Base(perm[6]) && t.px == c.width / 2 - 2 && t.py == -1
            && t.next == Some(perm[5]) && t.bag == perm[..5]
            && t.dropTimer == 0.0 && t.dropDelay == c.baseDelay && t.lockTimer == 0.0
            && !t.gameOver && t.lastCleared == 0
  {
    ResetState(c, s, perm);
    ResetState(c, s', perm);
  }

  /** The whole state `reset` leaves. */
  lemma ResetState(c: Config, s: State, perm: seq<char>)
    requires IsShuffleOf(perm, Keys)
    ensures Reseted(c, s, perm)
              == State(EmptyRows(c.width, c.height), 0, 0, perm[..5], Some(perm[5]), perm[6], Base(perm[6]),
                       c.width / 2 - 2, -1, 0.0, c.baseDelay, 0.0, false, 0)
  {
    ResetDraws(Emptied(c, s), perm);
  }

  /** The draws of `reset` from an empty bag and no preview: the refill, the preview pop
      of `_fill_bag`, and the promotion and pop of `_spawn_from_bag`. */
  lemma ResetDraws(e: State, perm: seq<char>)
    requires IdsOk(e) && e.bag == [] && e.next.None? && IsShuffleOf(perm, Keys)
    ensures |perm| == 7 && Filled(e, perm) == e.(bag := perm[..6], next := Some(perm[6]))
            && Promoted(Filled(Filled(e, perm), perm)) == e.(bag := perm[..5], next := Some(perm[5]), pieceType := perm[6])
  {
    ShuffleHasKeys(perm);
    PrefixOfPrefix(perm, 6, 5);
    assert Refilled(e, perm) == e.(bag := perm);
    var f := Filled(e, perm);
    assert f == e.(bag := perm[..6], next := Some(perm[6]));
    assert Filled(f, perm) == f;
  }

  /** Locking a piece scores `score_for_clear` of the number of full rows the placed
      piece made, adds that number to the lines, and leaves the cleared board; the spawn
      that follows keeps all four. */
  lemma LockScores(c: Config, s: State, perm: seq<char>)
    requires Inv(c, s) && IsShuffleOf(perm, Keys)
    ensures var t, u := Locked(c, s, perm), Scored(c, s);
            && t.board == u.board && t.score == u.score && t.lines == u.lines && t.lastCleared == u.lastCleared
            && u.lastCleared == FullCount(Placed(c, s))
            && u.score == s.score + ScoreForClear(u.lastCleared, c.level)
            && u.lines == s.lines + u.lastCleared
            && u.board == Cleared(Placed(c, s), c.width)
  {
    SpawnFacts(c, Scored(c, s), perm);
  }

  /** Placing one piece and clearing makes at most four full rows when the board had
      none before (the piece spans four rows), and, on a board with columns, leaves no
      full row. */
  lemma LockClearsAtMostFour(c: Config, s: State)
    requires Inv(c, s)
    requires forall r :: 0 <= r < |s.board| ==> HasGap(s.board[r])
    ensures 0 <= Scored(c, s).lastCleared <= 4
    ensures c.width > 0 ==> FullCount(Scored(c, s).board) == 0
  {
    var placed := Placed(c, s);
    forall r | 0 <= r < |placed| && !(s.py <= r < s.py + 4)
      ensures HasGap(placed[r])
    {
      assert placed[r] == s.board[r];
    }
    FullCountWindow(placed, s.py);
    if c.width > 0 {
      ClearIdempotent(placed, c.width, c.height);
    }
  }

  function Clamp(x: int, n: nat): nat
  {
    if x < 0 then 0 else if x > n then n else x
  }

  /** When only rows lo..lo+3 may be full, at most those (in-range) rows are counted. */
  lemma {:induction false} FullCountWindow(b: Board, lo: int)
    requires forall r :: 0 <= r < |b| && !(lo <= r < lo + 4) ==> HasGap(b[r])
    ensures FullCount(b) <= Clamp(lo + 4, |b|) - Clamp(lo, |b|) <= 4
    decreases |b|
  {
    if b != [] {
      forall r | 0 <= r < |b| - 1 && !(lo - 1 <= r < lo + 3)
        ensures HasGap(b[1..][r])
      {
        assert b[1..][r] == b[r + 1];
      }
      FullCountWindow(b[1..], lo - 1);
    }
  }

  /** A hard drop locks the piece exactly at its ghost row: the first row at or below
      the piece from which one more row down collides. */
  lemma HardDropLandsAtGhost(c: Config, s: State, perm: seq<char>)
    requires Inv(c, s) && IsShuffleOf(perm, Keys)
    ensures var g := GhostY(c, s);
            && g >= s.py
            && !MatrixFits(s.board, c.width, c.height, s.piece, s.px, g + 1)
            && (forall k :: s.py < k <= g ==> MatrixFits(s.board, c.width, c.height, s.piece, s.px, k))
            && HardDropped(c, s, perm) == Locked(c, s.(py := g), perm)
  {
  }

  /** `t` has the board, score, bag, preview and piece of `s`, with the piece at most one
      row lower. */
  predicate FallsAtMostOne(s: State, t: State)
  {
    && t.board == s.board && t.score == s.score && t.bag == s.bag && t.next == s.next
    && t.piece == s.piece && t.px == s.px && s.py <= t.py <= s.py + 1
  }

  /** When the piece fits one row lower, a gravity step moves it there and keeps the
      board, score, bag, preview and piece. */
  lemma GravityFalls(c: Config, s: State, dt: real, perm: seq<char>)
    requires Inv(c, s) && IsShuffleOf(perm, Keys)
    requires MatrixFits(s.board, c.width, c.height, s.piece, s.px, s.py + 1)
    ensures FallsAtMostOne(s, Gravity(c, s, dt, perm)) && Gravity(c, s, dt, perm).py == s.py + 1
  {
    var t := s.(py := s.py + 1, lockTimer := 0.0);
    assert Gravity(c, s, dt, perm) == t;
  }

  /** When the piece is blocked and the lock delay has not run out, a gravity step
      keeps the board, score, bag, preview, piece and position. */
  lemma GravityWaits(c: Config, s: State, dt: real, perm: seq<char>)
    requires Inv(c, s) && IsShuffleOf(perm, Keys)
    requires !MatrixFits(s.board, c.width, c.height, s.piece, s.px, s.py + 1) && s.lockTimer + dt < c.lockDelay
    ensures FallsAtMostOne(s, Gravity(c, s, dt, perm)) && Gravity(c, s, dt, perm).py == s.py
  {
    var t := s.(lockTimer := s.lockTimer + dt);
    assert Gravity(c, s, dt, perm) == t;
  }

  /** `update` locks the piece exactly when the game is running, the drop timer reaches
      the gravity interval, the piece is blocked below and the lock timer reaches the
      lock delay. */
  predicate UpdateLocks(c: Config, s: State, dt: real, softDown: bool)
    requires Inv(c, s)
  {
    && !s.gameOver && s.dropTimer + dt >= GravityDelay(c, softDown)
    && !MatrixFits(s.board, c.width, c.height, s.piece, s.px, s.py + 1) && s.lockTimer + dt >= c.lockDelay
  }

  /** Once the game is over `update` changes nothing. Otherwise, unless it locks the
      piece, one call keeps the board, score, bag, preview and piece and moves the piece
      down by at most one row. */
  lemma UpdateSteps(c: Config, s: State, dt: real, softDown: bool, perm: seq<char>)
    requires Inv(c, s) && IsShuffleOf(perm, Keys)
    requires !UpdateLocks(c, s, dt, softDown)
    ensures s.gameOver ==> Updated(c, s, dt, softDown, perm) == s
    ensures FallsAtMostOne(s, Updated(c, s, dt, softDown, perm))
  {
    if !s.gameOver && s.dropTimer + dt >= GravityDelay(c, softDown) {
      var s1 := s.(dropTimer := 0.0);
      if MatrixFits(s1.board, c.width, c.height, s1.piece, s1.px, s1.py + 1) {
        GravityFalls(c, s1, dt, perm);
      } else {
        GravityWaits(c, s1, dt, perm);
      }
    }
  }

  /** A move changes only the column and the lock timer; when it happens the piece fits
      at its new place, and moving back restores the state (but for the lock timer)
      whenever the piece fitted where it was. */
  lemma MoveUndo(c: Config, s: State, dx: int)
    requires Inv(c, s) && MatrixFits(s.board, c.width, c.height, s.piece, s.px, s.py)
    ensures var t := Moved(c, s, dx);
            && t.(px := s.px, lockTimer := s.lockTimer) == s
            && MatrixFits(t.board, c.width, c.height, t.piece, t.px, t.py)
            && (t != s ==> Moved(c, t, -dx) == s.(lockTimer := 0.0))
  {
    var t := Moved(c, s, dx);
    if t != s {
      assert t.px + -dx == s.px;
      assert MatrixFits(t.board, c.width, c.height, t.piece, t.px + -dx, t.py);
    }
  }

  /** A soft drop moves the piece down exactly one row or not at all, the lock timer is
      reset exactly when it moves, and nothing else changes. */
  lemma SoftDropStep(c: Config, s: State)
    requires Inv(c, s)
    ensures var t := SoftDropped(c, s);
            && (t.py == s.py + 1 <==> MatrixFits(s.board, c.width, c.height, s.piece, s.px, s.py + 1))
            && (t.py == s.py <==> !MatrixFits(s.board, c.width, c.height, s.piece, s.px, s.py + 1))
            && t.(py := s.py, lockTimer := s.lockTimer) == s
  {
  }

  /** A rotation commits the clockwise bitmap at the FIRST kick, in list order, where it
      fits, moving by that kick and resetting the lock timer. `rotate` is the instance
      `kicks == RotateKicks`. */
  lemma RotateCommitsFirstFit(c: Config, s: State, kicks: seq<(int, int)>, i: nat)
    requires Inv(c, s) && i < |kicks|
    requires MatrixFits(s.board, c.width, c.height, RotateCw(s.piece), s.px + kicks[i].0, s.py + kicks[i].1)
    requires forall j :: 0 <= j < i ==>
               !MatrixFits(s.board, c.width, c.height, RotateCw(s.piece), s.px + kicks[j].0, s.py + kicks[j].1)
    ensures RotatedWith(c, s, kicks)
            == s.(piece := RotateCw(s.piece), px := s.px + kicks[i].0, py := s.py + kicks[i].1, lockTimer := 0.0)
  {
    RotateCwKeepsCount(s.piece);
    FirstFitAt(s.board, c.width, c.height, RotateCw(s.piece), s.px, s.py, kicks, 0, i);
  }

  /** When no kick fits, a rotation changes nothing. */
  lemma RotateFailsUnchanged(c: Config, s: State, kicks: seq<(int, int)>)
    requires Inv(c, s)
    requires forall j :: 0 <= j < |kicks| ==>
               !MatrixFits(s.board, c.width, c.height, RotateCw(s.piece), s.px + kicks[j].0, s.py + kicks[j].1)
    ensures RotatedWith(c, s, kicks) == s
  {
    RotateCwKeepsCount(s.piece);
    FirstFitNone(s.board, c.width, c.height, RotateCw(s.piece), s.px, s.py, kicks, 0);
  }

  // ---------------------------------------------------------------------------
  // Bag fairness

  /** The id `_fill_bag` pops into the preview, if there was none. */
  function FillDraws(s: State, perm: seq<char>): seq<char>
    requires IdsOk(s) && IsShuffleOf(perm, Keys)
  {
    if s.next.None? then [Filled(s, perm).next.value] else []
  }

  /** The id the spawn pops as the new preview, if the bag is not empty. */
  function PromoteDraws(s: State): seq<char>
  {
    if s.bag == [] then [] else [s.bag[|s.bag| - 1]]
  }

  lemma ConcatAssoc(a: seq<char>, b: seq<char>, c: seq<char>)
    ensures a + b + c == a + (b + c)
  {
  }

  /** The ids a spawn pops from the bag, in order. */
  function Draws(s: State, perm: seq<char>): seq<char>
    requires IdsOk(s) && IsShuffleOf(perm, Keys)
  {
    FillDraws(s, perm) + PromoteDraws(Filled(s, perm))
  }

  lemma FillKeepsFair(s: State, perm: seq<char>, drawn: seq<char>)
    requires IdsOk(s) && IsShuffleOf(perm, Keys)
    requires PermBlocks(drawn + Rev(s.bag), Keys)
    ensures PermBlocks(drawn + FillDraws(s, perm) + Rev(Filled(s, perm).bag), Keys)
  {
    RefillKeepsBlocks(drawn, s.bag, perm, Keys);
    var r := Refilled(s, perm);
    assert r.bag == Refill(s.bag, perm);
    if s.next.None? {
      PopKeepsBlocks(drawn, r.bag);
    } else {
      assert drawn + FillDraws(s, perm) == drawn;
    }
  }

  lemma PromoteKeepsFair(s: State, drawn: seq<char>)
    requires IdsOk(s) && s.next.Some?
    requires PermBlocks(drawn + Rev(s.bag), Keys)
    ensures PermBlocks(drawn + PromoteDraws(s) + Rev(Promoted(s).bag), Keys)
  {
    if s.bag != [] {
      PopKeepsBlocks(drawn, s.bag);
    } else {
      assert drawn + PromoteDraws(s) == drawn;
    }
  }

  /** Fairness of the 7-bag, one spawn at a time: if the ids drawn so far followed by the
      bag in `pop` order are whole shuffles of the seven ids, they still are after the
      spawn's draws. */
  lemma SpawnKeepsFair(c: Config, s: State, perm: seq<char>, drawn: seq<char>)
    requires SpawnReady(c, s) && IsShuffleOf(perm, Keys)
    requires PermBlocks(drawn + Rev(s.bag), Keys)
    ensures PermBlocks(drawn + Draws(s, perm) + Rev(Spawned(c, s, perm).bag), Keys)
  {
    FillKeepsFair(s, perm, drawn);
    var f := Filled(s, perm);
    PromoteKeepsFair(f, drawn + FillDraws(s, perm));
    var x, y := FillDraws(s, perm), PromoteDraws(f);
    assert Draws(s, perm) == x + y;
    ConcatAssoc(drawn, x, y);
    assert Spawned(c, s, perm).bag == Promoted(f).bag;
  }

  /** The two ids dealt from a fresh shuffle (last, then second to last) followed by the
      rest of it in `pop` order are exactly that shuffle reversed, hence one block. */
  lemma DealtShuffleFair(perm: seq<char>)
    requires IsShuffleOf(perm, Keys)
    ensures |perm| == 7
    ensures PermBlocks([perm[6], perm[5]] + Rev(perm[..5]), Keys)
  {
    ShuffleHasKeys(perm);
    RevLastTwo(perm);
    RevMultiset(perm);
    ShuffleIsBlock(Rev(perm), Keys);
  }

  /** After a reset the bag starts a fresh block: the two ids drawn (the current piece,
      then the preview) followed by the bag in `pop` order are exactly one shuffle. */
  lemma ResetIsFair(c: Config, s: State, perm: seq<char>)
    requires IsShuffleOf(perm, Keys)
    ensures var t := Reseted(c, s, perm);
            t.next.Some? && PermBlocks([t.pieceType, t.next.value] + Rev(t.bag), Keys)
  {
    ResetFacts(c, s, s, perm);
    DealtShuffleFair(perm);
  }

  // ---------------------------------------------------------------------------
  // The engine

  class Game {
    const width: nat
    const height: nat
    const level: int
    const lockDelay: real
    /** `level_to_delay(level)`, supplied rather than computed (it uses `0.8 ** level`). */
    const baseDelay: real

    /** The fields `Game` updates (board, score, lines, bag, preview, current piece and
        position, timers, game-over flag, last cleared count), kept together. */
    var st: State

    function Cfg(): Config
    {
      Config(width, height, level, lockDelay, baseDelay)
    }

    ghost predicate Valid()
      reads this`st
    {
      Inv(Cfg(), st)
    }

    constructor (width: nat := 10, height: nat := 20, level: int := 0, lockDelay: real := 0.5, baseDelay: real, perm: seq<char>)
      requires IsShuffleOf(perm, Keys)
      ensures this.width == width && this.height == height && this.level == level
      ensures this.lockDelay == lockDelay && this.baseDelay == baseDelay
      ensures forall s :: st == Reseted(Cfg(), s, perm)
      ensures Valid()
    {
      this.width := width;
      this.height := height;
      this.level := level;
      this.lockDelay := lockDelay;
      this.baseDelay := baseDelay;
      new;
      ghost var s0 := st;
      Reset(perm);
      forall s
        ensures st == Reseted(Cfg(), s, perm)
      {
        ResetFacts(Cfg(), s0, s, perm);
      }
    }

    /** `reset`: empty board, zero score and lines, an empty bag and no preview, then
        `_fill_bag` and `_spawn_from_bag`, then zero timers and a cleared game-over
        flag. */
    method Reset(perm: seq<char>)
      requires IsShuffleOf(perm, Keys)
      modifies this`st
      ensures st == Reseted(Cfg(), old(st), perm)
      ensures Valid()
    {
      EmptyRowsShape(width, height);
      st := st.(board := EmptyRows(width, height), score := 0, lines := 0, bag := [], next := None);
      FillBag(perm);
      SpawnFromBag(perm);
      st := st.(dropTimer := 0.0, dropDelay := baseDelay, lockTimer := 0.0, gameOver := false, lastCleared := 0);
    }

    /** `bag.pop()`: removes and returns the last id. */
    method PopBag() returns (k: char)
      requires st.bag != []
      modifies this`st
      ensures k == old(st.bag)[|old(st.bag)| - 1]
      ensures st == old(st).(bag := old(st.bag)[..|old(st.bag)| - 1])
    {
      k := st.bag[|st.bag| - 1];
      st := st.(bag := st.bag[..|st.bag| - 1]);
    }

    /** `_fill_bag`: refill an empty bag, then pop a preview id if there is none. */
    method FillBag(perm: seq<char>)
      requires IdsOk(st) && IsShuffleOf(perm, Keys)
      modifies this`st
      ensures st == Filled(old(st), perm)
    {
      RefillBag(perm);
      DrawPreview();
    }

    /** The refill shared by `_fill_bag` and `_spawn_from_bag`: an empty bag becomes
        the shuffle `perm` (the source shuffles with `random.shuffle`). */
    method RefillBag(perm: seq<char>)
      requires IdsOk(st) && IsShuffleOf(perm, Keys)
      modifies this`st
      ensures st == Refilled(old(st), perm)
    {
      if st.bag == [] {
        st := st.(bag := perm);
      }
    }

    /** The preview draw shared by `_fill_bag` and `_spawn_from_bag`. */
    method DrawPreview()
      requires IdsOk(st) && st.bag != []
      modifies this`st
      ensures st == Previewed(old(st))
    {
      if st.next.None? {
        var k := PopBag();
        st := st.(next := Some(k));
      }
    }

    /** `_spawn_from_bag`: the refill and preview draw of `_fill_bag`, then the preview
        becomes the current piece, the next id is popped if the bag still has one (else
        the preview is left empty), the piece is placed at column width//2 - 2, row -1
        with a zero lock timer, and the game is over if it collides there. */
    method SpawnFromBag(perm: seq<char>)
      requires SpawnReady(Cfg(), st) && IsShuffleOf(perm, Keys)
      modifies this`st
      ensures st == Spawned(Cfg(), old(st), perm)
    {
      FillBag(perm);
      PromoteNext();
      PlaceSpawned();
    }

    /** The preview becomes the current id; the next preview is popped, or `None`. */
    method PromoteNext()
      requires IdsOk(st) && st.next.Some?
      modifies this`st
      ensures st == Promoted(old(st))
    {
      st := st.(pieceType := st.next.value);
      if st.bag != [] {
        var k := PopBag();
        st := st.(next := Some(k));
      } else {
        st := st.(next := None);
      }
    }

    /** The placement and game-over check of `_spawn_from_bag`. */
    method PlaceSpawned()
      requires SpawnReady(Cfg(), st) && st.pieceType in Keys
      modifies this`st
      ensures st == Placing(Cfg(), old(st))
    {
      st := st.(piece := Base(st.pieceType), px := width / 2 - 2, py := -1, lockTimer := 0.0);
      var c := Collides(st.px, st.py, st.piece);
      if c {
        st := st.(gameOver := true);
      }
    }

    /** `collides`: some filled cell of `shape` at (x, y) is outside the side walls, at or
        below the floor, or on a filled visible cell. */
    method Collides(x: int, y: int, shape: Matrix) returns (c: bool)
      requires IsBoard(st.board, width, height) && Is4x4(shape)
      ensures c == !MatrixFits(st.board, width, height, shape, x, y)
    {
      var ok := CheckMatrixFits(st.board, width, height, shape, x, y);
      c := !ok;
    }

    /** `rotate`: commit the clockwise rotation at the first kick where it does not
        collide and report whether it did. */
    method Rotate() returns (ok: bool)
      requires Valid()
      modifies this`st
      ensures st == Rotated(Cfg(), old(st))
      ensures ok == FirstFittingKick(st.board, width, height, RotateCw(old(st.piece)), old(st.px), old(st.py), RotateKicks, 0).Some?
      ensures Valid()
    {
      var newp := RotateCw(st.piece);
      var k := FindFirstKick(st.board, width, height, newp, st.px, st.py, RotateKicks);
      if k.None? {
        return false;
      }
      var (ox, oy) := RotateKicks[k.value];
      st := st.(piece := newp, px := st.px + ox, py := st.py + oy, lockTimer := 0.0);
      return true;
    }

    /** `move(dx)`: shift by dx columns if that does not collide. */
    method Move(dx: int) returns (ok: bool)
      requires Valid()
      modifies this`st
      ensures st == Moved(Cfg(), old(st), dx)
      ensures ok == MatrixFits(st.board, width, height, st.piece, old(st.px) + dx, st.py)
      ensures Valid()
    {
      var c := Collides(st.px + dx, st.py, st.piece);
      if !c {
        st := st.(px := st.px + dx, lockTimer := 0.0);
        return true;
      }
      return false;
    }

    /** `soft_drop`: move down one row if that does not collide. */
    method SoftDrop() returns (ok: bool)
      requires Valid()
      modifies this`st
      ensures st == SoftDropped(Cfg(), old(st))
      ensures ok == MatrixFits(st.board, width, height, st.piece, st.px, old(st.py) + 1)
      ensures Valid()
    {
      var c := Collides(st.px, st.py + 1, st.piece);
      if !c {
        st := st.(py := st.py + 1, lockTimer := 0.0);
        return true;
      }
      return false;
    }

    /** The loop shared by `hard_drop` and `get_ghost_y`: from row `y`, move down while
        the next row does not collide. */
    method DropLoop(y: int) returns (gy: int)
      requires IsBoard(st.board, width, height) && Is4x4(st.piece) && HasCell(st.piece)
      ensures gy == DropRow(st.board, width, height, st.piece, st.px, y)
    {
      gy := y;
      var c := Collides(st.px, gy + 1, st.piece);
      while !c
        invariant DropRow(st.board, width, height, st.piece, st.px, gy) == DropRow(st.board, width, height, st.piece, st.px, y)
        invariant c == !MatrixFits(st.board, width, height, st.piece, st.px, gy + 1)
        decreases height - gy
      {
        FitsAboveFloor(st.board, width, height, st.piece, st.px, gy + 1);
        gy := gy + 1;
        c := Collides(st.px, gy + 1, st.piece);
      }
    }

    /** `hard_drop`: drop to the landing row, then lock (which clears, scores and
        spawns). */
    method HardDrop(perm: seq<char>)
      requires Valid() && IsShuffleOf(perm, Keys)
      modifies this`st
      ensures st == HardDropped(Cfg(), old(st), perm)
      ensures Valid()
    {
      CountHasCell(st.piece);
      var gy := DropLoop(st.py);
      st := st.(py := gy);
      LockPiece(perm);
    }

    /** `lock_piece`: write the piece id into its in-bounds cells, clear lines, add
        `score_for_clear` and the cleared count, then spawn. */
    method LockPiece(perm: seq<char>)
      requires Valid() && IsShuffleOf(perm, Keys)
      modifies this`st
      ensures st == Locked(Cfg(), old(st), perm)
      ensures Valid()
    {
      PlaceAndScore();
      SpawnFromBag(perm);
    }

    /** The part of `lock_piece` before the spawn. */
    method PlaceAndScore()
      requires Valid()
      modifies this`st
      ensures st == Scored(Cfg(), old(st))
    {
      var placed := StampMatrix(st.board, width, height, st.piece, st.px, st.py, Block(st.pieceType));
      st := st.(board := placed);
      var cleared := ClearLines();
      st := st.(lastCleared := cleared, score := st.score + ScoreForClear(cleared, level), lines := st.lines + cleared);
    }

    /** `clear_lines`: remove every row with no empty cell, refill with empty rows on
        top, return how many were removed. */
    method ClearLines() returns (cleared: int)
      requires IsBoard(st.board, width, height)
      modifies this`st
      ensures st == old(st).(board := Cleared(old(st.board), width))
      ensures cleared == FullCount(old(st.board))
      ensures IsBoard(st.board, width, height)
    {
      var nb;
      nb, cleared := ClearFullRows(st.board, width, height);
      st := st.(board := nb);
    }

    /** `update(dt, soft_down)`: nothing once the game is over; otherwise accumulate dt,
        and once the interval is reached reset the accumulator and take a gravity
        step. */
    method Update(dt: real, softDown: bool := false, perm: seq<char>)
      requires Valid() && IsShuffleOf(perm, Keys)
      modifies this`st
      ensures st == Updated(Cfg(), old(st), dt, softDown, perm)
      ensures Valid()
    {
      if st.gameOver {
        return;
      }
      st := st.(dropTimer := st.dropTimer + dt);
      var delay := GravityDelay(Cfg(), softDown);
      if st.dropTimer >= delay {
        st := st.(dropTimer := 0.0);
        GravityStep(dt, perm);
      }
    }

    /** The gravity step of `update`: down a row if that fits, else advance the lock
        timer by dt and lock (then zero the lock timer) once it reaches the delay. */
    method GravityStep(dt: real, perm: seq<char>)
      requires Valid() && IsShuffleOf(perm, Keys)
      modifies this`st
      ensures st == Gravity(Cfg(), old(st), dt, perm)
    {
      var c := Collides(st.px, st.py + 1, st.piece);
      if !c {
        st := st.(py := st.py + 1, lockTimer := 0.0);
      } else {
        BlockedStep(dt, perm);
      }
    }

    /** A blocked gravity step: the lock timer grows by dt; once it has reached the lock
        delay the piece locks and the lock timer is zeroed. */
    method BlockedStep(dt: real, perm: seq<char>)
      requires Valid() && IsShuffleOf(perm, Keys)
      requires !MatrixFits(st.board, width, height, st.piece, st.px, st.py + 1)
      modifies this`st
      ensures st == Gravity(Cfg(), old(st), dt, perm)
    {
      ghost var u := st.(lockTimer := st.lockTimer + dt);
      assert Gravity(Cfg(), st, dt, perm) == if u.lockTimer < lockDelay then u else Locked(Cfg(), u, perm);
      st := st.(lockTimer := st.lockTimer + dt);
      if st.lockTimer >= lockDelay {
        LockPiece(perm);
        st := st.(lockTimer := 0.0);
      }
    }

    /** `get_buffer`: a copy of the board with the current piece's in-bounds cells
        written over it. */
    method GetBuffer() returns (buf: Board)
      requires Valid()
      ensures IsBoard(buf, width, height)
      ensures forall r, col :: 0 <= r < height && 0 <= col < width ==>
                buf[r][col] == if Covers(st.piece, st.px, st.py, col, r) then Block(st.pieceType) else st.board[r][col]
    {
      buf := StampMatrix(st.board, width, height, st.piece, st.px, st.py, Block(st.pieceType));
      forall r, col | 0 <= r < height && 0 <= col < width
        ensures buf[r][col] == if Covers(st.piece, st.px, st.py, col, r) then Block(st.pieceType) else st.board[r][col]
      {
        StampedCell(st.board, width, height, st.piece, st.px, st.py, Block(st.pieceType), col, r);
      }
    }

    /** `get_ghost_y`: the first row at or below the piece from which one more row down
        collides; nothing is changed. */
    method GetGhostY() returns (gy: int)
      requires Valid()
      ensures gy >= st.py && !MatrixFits(st.board, width, height, st.piece, st.px, gy + 1)
      ensures forall k :: st.py < k <= gy ==> MatrixFits(st.board, width, height, st.piece, st.px, k)
    {
      CountHasCell(st.piece);
      gy := DropLoop(st.py);
    }

    /** `get_ghost_buffer`: an otherwise empty board holding the piece at its landing
        row. */
    method GetGhostBuffer() returns (buf: Board)
      requires Valid()
      ensures IsBoard(buf, width, height)
      ensures buf == Stamped(EmptyRows(width, height), width, height, st.piece, st.px,
                             GhostY(Cfg(), st), Block(st.pieceType))
    {
      EmptyRowsShape(width, height);
      buf := EmptyRows(width, height);
      CountHasCell(st.piece);
      var gy := DropLoop(st.py);
      buf := StampMatrix(buf, width, height, st.piece, st.px, gy, Block(st.pieceType));
    }

    /** `add_garbage(n)`: n times, drop the top row and append a garbage row whose hole
        is the next of the supplied `holes` (the source draws it with `randrange`). */
    method AddGarbage(n: int, holes: seq<int>)
      requires Valid()
      requires |holes| == (if n > 0 then n else 0)
      requires forall i :: 0 <= i < |holes| ==> 0 <= holes[i] < width
      requires n > 0 ==> height > 0
      modifies this`st
      ensures st == old(st).(board := WithGarbage(old(st.board), width, holes))
      ensures Valid()
    {
      var i := 0;
      while i < |holes|
        invariant 0 <= i <= |holes|
        invariant st == old(st).(board := WithGarbage(old(st.board), width, holes[..i]))
        invariant IsBoard(st.board, width, height)
      {
        var row := GarbageRow(width, holes[i]);
        GarbageStep(old(st.board), width, holes, i);
        GarbageShape(old(st.board), width, height, holes[..i + 1]);
        st := st.(board := st.board[1..] + [row]);
        i := i + 1;
      }
      assert holes[..|holes|] == holes;
    }
  }
}

